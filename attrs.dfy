/** The attribute list helper (`AttrHelper`): the dictionary of cache
    attributes built from the shared attributes document, the cached copy it
    is initialised from, the daily refresh rule and the whitespace clean-up
    of descriptions. The XML document is an abstract tree. */
module Attrs {
  import opened Wrappers
  import opened Php

  // ---------------------------------------------------------------------
  // cleanup_string
  // ---------------------------------------------------------------------

  /** `\s` in a pattern with the `u` modifier: the ASCII white space
      characters and the Unicode space separators, line and paragraph
      separators, NEL and MONGOLIAN VOWEL SEPARATOR. */
  predicate IsSpace(c: char) {
    || c == ' ' || '\t' <= c <= '\r' || c == '\U{85}' || c == '\U{A0}' || c == '\U{1680}'
    || c == '\U{180E}' || '\U{2000}' <= c <= '\U{200A}' || c == '\U{2028}' || c == '\U{2029}'
    || c == '\U{202F}' || c == '\U{205F}' || c == '\U{3000}'
  }

  /** How many white space characters `s` starts with. */
  function LeadingSpaces(s: string): (k: nat)
    ensures k <= |s|
    ensures forall i :: 0 <= i < k ==> IsSpace(s[i])
    ensures k == |s| || !IsSpace(s[k])
  {
    if s != [] && IsSpace(s[0]) then 1 + LeadingSpaces(s[1..]) else 0
  }

  /** The length of `s` without its trailing white space. */
  function TrailingStart(s: string): (k: nat)
    ensures k <= |s|
    ensures forall i :: k <= i < |s| ==> IsSpace(s[i])
    ensures k == 0 || !IsSpace(s[k - 1])
  {
    if s != [] && IsSpace(s[|s| - 1]) then TrailingStart(s[..|s| - 1]) else |s|
  }

  /** The string without its leading white space. */
  function DropSpaces(s: string): string
  {
    s[LeadingSpaces(s)..]
  }

  /** The string without its trailing white space. */
  function DropTrailingSpaces(s: string): string
  {
    s[..TrailingStart(s)]
  }

  /** The only white space in `t` is the plain space. */
  predicate OnlyPlainSpaces(t: string) {
    forall i :: 0 <= i < |t| && IsSpace(t[i]) ==> t[i] == ' '
  }

  /** No two white space characters in `t` are adjacent. */
  predicate NoSpaceRuns(t: string) {
    forall i, j :: 0 <= i < |t| && 0 <= j < |t| && j == i + 1 ==> !(IsSpace(t[i]) && IsSpace(t[j]))
  }

  /** `preg_replace('/\s+/us', " ", $s)`: every run of white space becomes one space. */
  function Collapse(s: string): (t: string)
    ensures |s| > 0 <==> |t| > 0
    ensures |s| > 0 ==> (IsSpace(t[0]) <==> IsSpace(s[0]))
    ensures OnlyPlainSpaces(t)
    ensures NoSpaceRuns(t)
    decreases |s|
  {
    if s == [] then []
    else if IsSpace(s[0]) then
      var rest := Collapse(DropSpaces(s));
      [' '] + rest
    else
      var rest := Collapse(s[1..]);
      [s[0]] + rest
  }

  /** `cleanup_string`: white space runs collapsed to one space, then white
      space at both ends removed. */
  function CleanupString(s: string): string
  {
    DropTrailingSpaces(DropSpaces(Collapse(s)))
  }

  /** The characters of a string that are not white space, in order. */
  function NonSpace(s: string): string
  {
    if s == [] then [] else (if IsSpace(s[0]) then [] else [s[0]]) + NonSpace(s[1..])
  }

  /** The shape every cleaned-up string has: no white space but single
      spaces, and none at either end. */
  predicate Normalized(t: string) {
    && OnlyPlainSpaces(t)
    && NoSpaceRuns(t)
    && (|t| > 0 ==> !IsSpace(t[0]) && !IsSpace(t[|t| - 1]))
  }

  lemma {:induction false} NonSpaceAppend(a: string, b: string)
    ensures NonSpace(a + b) == NonSpace(a) + NonSpace(b)
  {
    if a != [] {
      assert (a + b)[1..] == a[1..] + b;
      NonSpaceAppend(a[1..], b);
    } else {
      assert a + b == b;
    }
  }

  lemma NonSpaceOfSpaces(s: string)
    requires forall i :: 0 <= i < |s| ==> IsSpace(s[i])
    ensures NonSpace(s) == []
  {
  }

  /** Collapsing keeps every other character, in order. */
  lemma {:induction false} CollapseKeepsText(s: string)
    ensures NonSpace(Collapse(s)) == NonSpace(s)
    decreases |s|
  {
    if s != [] {
      if IsSpace(s[0]) {
        var k := LeadingSpaces(s);
        var d := s[k..];
        CollapseKeepsText(d);
        assert s == s[..k] + d;
        NonSpaceAppend(s[..k], d);
        NonSpaceOfSpaces(s[..k]);
        NonSpaceAppend([' '], Collapse(d));
      } else {
        CollapseKeepsText(s[1..]);
        NonSpaceAppend([s[0]], Collapse(s[1..]));
      }
    }
  }

  /** A piece of a string without white space runs has none either. */
  lemma SliceOfSingleSpaces(c: string, lo: nat, hi: nat)
    requires lo <= hi <= |c|
    requires OnlyPlainSpaces(c)
    requires NoSpaceRuns(c)
    ensures var t := c[lo..hi];
            && OnlyPlainSpaces(t)
            && NoSpaceRuns(t)
  {
    var t := c[lo..hi];
    assert forall i :: 0 <= i < |t| ==> t[i] == c[lo + i];
  }

  /** Trimming leaves a piece of the string with no white space at either end. */
  lemma TrimIsSlice(c: string) returns (lo: nat, hi: nat)
    ensures lo <= hi <= |c| && DropTrailingSpaces(DropSpaces(c)) == c[lo..hi]
    ensures var t := c[lo..hi]; |t| > 0 ==> !IsSpace(t[0]) && !IsSpace(t[|t| - 1])
  {
    var d := DropSpaces(c);
    lo := LeadingSpaces(c);
    assert d == c[lo..];
    hi := lo + TrailingStart(d);
    assert DropTrailingSpaces(d) == c[lo..hi];
  }

  /** Trimming a string without white space runs normalises it. */
  lemma TrimNormalizes(c: string)
    requires OnlyPlainSpaces(c)
    requires NoSpaceRuns(c)
    ensures Normalized(DropTrailingSpaces(DropSpaces(c)))
  {
    var lo, hi := TrimIsSlice(c);
    SliceOfSingleSpaces(c, lo, hi);
  }

  /** The clean-up result is normalised. */
  lemma CleanupNormalizes(s: string)
    ensures Normalized(CleanupString(s))
  {
    TrimNormalizes(Collapse(s));
  }

  /** Removing white space at the start keeps every other character. */
  lemma DropSpacesKeepsText(c: string)
    ensures NonSpace(DropSpaces(c)) == NonSpace(c)
  {
    var k := LeadingSpaces(c);
    var lead, d := c[..k], c[k..];
    assert c == lead + d;
    NonSpaceAppend(lead, d);
    NonSpaceOfSpaces(lead);
  }

  /** Removing white space at the end keeps every other character. */
  lemma DropTrailingKeepsText(d: string)
    ensures NonSpace(DropTrailingSpaces(d)) == NonSpace(d)
  {
    var n := TrailingStart(d);
    var t, trail := d[..n], d[n..];
    assert d == t + trail;
    NonSpaceAppend(t, trail);
    NonSpaceOfSpaces(trail);
  }

  /** The clean-up keeps every character that is not white space, in order. */
  lemma CleanupKeepsText(s: string)
    ensures NonSpace(CleanupString(s)) == NonSpace(s)
  {
    CollapseKeepsText(s);
    DropSpacesKeepsText(Collapse(s));
    DropTrailingKeepsText(DropSpaces(Collapse(s)));
  }

  /** A string without white space runs collapses to itself. */
  lemma {:induction false} CollapseOfSingleSpaces(t: string)
    requires OnlyPlainSpaces(t)
    requires NoSpaceRuns(t)
    ensures Collapse(t) == t
    decreases |t|
  {
    if t != [] {
      if IsSpace(t[0]) {
        if |t| > 1 {
          assert !IsSpace(t[1]);
        }
        assert LeadingSpaces(t) == 1;
      }
      CollapseOfSingleSpaces(t[1..]);
    }
  }

  /** A normalised string is left as it is. */
  lemma CleanupOfNormalized(t: string)
    requires Normalized(t)
    ensures CleanupString(t) == t
  {
    CollapseOfSingleSpaces(t);
  }

  /** Cleaning up twice is cleaning up once. */
  lemma CleanupIdempotent(s: string)
    ensures CleanupString(CleanupString(s)) == CleanupString(s)
  {
    CleanupNormalizes(s);
    CleanupOfNormalized(CleanupString(s));
  }

  /** `s` holds no white space at all. */
  predicate NoSpace(s: string) {
    forall i :: 0 <= i < |s| ==> !IsSpace(s[i])
  }

  /** Collapsing passes over a leading word unchanged. */
  lemma {:induction false} CollapseAfterWord(x: string, r: string)
    requires NoSpace(x)
    ensures Collapse(x + r) == x + Collapse(r)
    decreases |x|
  {
    if x != [] {
      assert (x + r)[0] == x[0];
      assert (x + r)[1..] == x[1..] + r;
      CollapseAfterWord(x[1..], r);
    } else {
      assert x + r == r;
    }
  }

  /** Two words with any run of white space between them come out joined by
      exactly one plain space. */
  lemma CleanupSeparatesWords(x: string, w: string, y: string)
    requires x != [] && w != [] && y != []
    requires NoSpace(x) && NoSpace(y)
    requires forall i :: 0 <= i < |w| ==> IsSpace(w[i])
    ensures CleanupString(x + w + y) == x + " " + y
  {
    var wy := w + y;
    var k := LeadingSpaces(wy);
    assert k == |w| by {
      assert !IsSpace(wy[|w|]);
    }
    assert DropSpaces(wy) == y;
    CollapseAfterWord(y, []);
    assert y + [] == y;
    assert Collapse(wy) == " " + y by {
      assert IsSpace(wy[0]);
    }
    CollapseAfterWord(x, wy);
    assert x + w + y == x + wy;
    var t := x + " " + y;
    assert Collapse(x + w + y) == t;
    assert LeadingSpaces(t) == 0 by {
      assert !IsSpace(t[0]);
    }
    assert TrailingStart(t) == |t| by {
      assert !IsSpace(t[|t| - 1]);
    }
  }

  // ---------------------------------------------------------------------
  // The attributes document and the records built from it
  // ---------------------------------------------------------------------

  /** An element of the parsed document: its tag, its attributes, its text
      content and its child elements in document order. For a `desc`
      element, `text` stands for its inner markup. */
  datatype Node = Node(tag: string, attributes: map<string, string>, text: string, children: seq<Node>)

  /** `(string)$node['name']`: "" when the attribute is absent. */
  function Attr(n: Node, name: string): (v: string)
    ensures name !in n.attributes ==> v == ""
  {
    if name in n.attributes then n.attributes[name] else ""
  }

  /** `$node->tag`: the child elements with that tag, in document order. */
  function Children(n: Node, tag: string): seq<Node>
  {
    Filter(n.children, tag)
  }

  function Filter(nodes: seq<Node>, tag: string): (r: seq<Node>)
    ensures |r| <= |nodes|
  {
    if nodes == [] then []
    else
      var init := Filter(nodes[..|nodes| - 1], tag);
      var last := nodes[|nodes| - 1];
      if last.tag == tag then init + [last] else init
  }

  /** The selected children are exactly the children with that tag. */
  lemma {:induction false} FilterMembers(nodes: seq<Node>, tag: string, n: Node)
    ensures n in Filter(nodes, tag) <==> n in nodes && n.tag == tag
  {
    if nodes != [] {
      var init := nodes[..|nodes| - 1];
      var last := nodes[|nodes| - 1];
      FilterMembers(init, tag, n);
      assert nodes == init + [last];
      assert n in nodes <==> n in init || n == last;
    }
  }

  /** A Groundspeak equivalent of an attribute. */
  datatype GsEquiv = GsEquiv(id: int, inc: int, name: string)

  /** One entry of the attribute dictionary. Names, descriptions and
      captions are keyed by language. */
  datatype Attribute = Attribute(
    id: string,
    gsEquivs: seq<GsEquiv>,
    internalIds: seq<int>,
    names: map<string, string>,
    descriptions: map<string, string>,
    searchIncCaptions: map<string, string>,
    searchExcCaptions: map<string, string>)

  /** The value kept in the cache: the dictionary and when it was built. */
  datatype Cached = Cached(attrDict: map<string, Attribute>, lastRefreshed: int)

  /** The internal id schema of this installation. */
  function Schema(ocBranch: string): (schema: string)
    ensures schema == "OCPL" <==> ocBranch == "oc.pl"
    ensures schema == "OCPL" || schema == "OCDE"
  {
    if ocBranch == "oc.pl" then "OCPL" else "OCDE"
  }

  /** A `groundspeak` element as an equivalent. `inc` is 1 when the
      attribute equals "true" or "1" under PHP's loose comparison, which
      reads "01", "+1" and " 1" as the number 1. */
  function GsEquivOf(n: Node): (g: GsEquiv)
    ensures g.inc == 1 <==> Attr(n, "inc") == "true" || IntegerNumeric(Attr(n, "inc")) == Some(1)
    ensures g.inc == 0 || g.inc == 1
    ensures g.name == Attr(n, "name")
  {
    var inc := Attr(n, "inc");
    NumericOne();
    NotNumericTrue();
    GsEquiv(NumericPrefix(Attr(n, "id")), if LooseEquals(inc, "true") || LooseEquals(inc, "1") then 1 else 0, Attr(n, "name"))
  }

  function GsEquivs(nodes: seq<Node>): (r: seq<GsEquiv>)
    ensures |r| == |nodes|
  {
    if nodes == [] then [] else GsEquivs(nodes[..|nodes| - 1]) + [GsEquivOf(nodes[|nodes| - 1])]
  }

  /** One equivalent per `groundspeak` element, in document order. */
  lemma {:induction false} GsEquivsAt(nodes: seq<Node>, i: nat)
    requires i < |nodes|
    ensures GsEquivs(nodes)[i] == GsEquivOf(nodes[i])
  {
    var init := nodes[..|nodes| - 1];
    assert GsEquivs(nodes) == GsEquivs(init) + [GsEquivOf(nodes[|nodes| - 1])];
    if i < |nodes| - 1 {
      GsEquivsAt(init, i);
      assert init[i] == nodes[i];
    }
  }

  /** The ids of the `opencaching` elements of the local schema, in document order. */
  function InternalIds(nodes: seq<Node>, schema: string): seq<int>
  {
    if nodes == [] then []
    else
      var init := InternalIds(nodes[..|nodes| - 1], schema);
      var last := nodes[|nodes| - 1];
      if Attr(last, "schema") == schema then init + [NumericPrefix(Attr(last, "id"))] else init
  }

  /** Internal ids are collected element by element: those of a longer
      document are those of its first part followed by those of the rest. */
  lemma {:induction false} InternalIdsAppend(a: seq<Node>, b: seq<Node>, schema: string)
    ensures InternalIds(a + b, schema) == InternalIds(a, schema) + InternalIds(b, schema)
  {
    if b == [] {
      assert a + b == a;
    } else {
      var init, last := b[..|b| - 1], b[|b| - 1];
      var tail: seq<int> := if Attr(last, "schema") == schema then [NumericPrefix(Attr(last, "id"))] else [];
      assert (a + b)[..|a + b| - 1] == a + init;
      assert (a + b)[|a + b| - 1] == last;
      assert InternalIds(a + b, schema) == InternalIds(a + init, schema) + tail;
      assert InternalIds(b, schema) == InternalIds(init, schema) + tail;
      InternalIdsAppend(a, init, schema);
      assert (InternalIds(a, schema) + InternalIds(init, schema)) + tail
          == InternalIds(a, schema) + (InternalIds(init, schema) + tail);
    }
  }

  /** An id is listed exactly when some element of the local schema carries it. */
  lemma {:induction false} InternalIdsMembers(nodes: seq<Node>, schema: string, id: int)
    ensures id in InternalIds(nodes, schema) <==>
            exists i :: 0 <= i < |nodes| && Attr(nodes[i], "schema") == schema && NumericPrefix(Attr(nodes[i], "id")) == id
  {
    if nodes != [] {
      var init := nodes[..|nodes| - 1];
      InternalIdsMembers(init, schema, id);
      assert forall i :: 0 <= i < |init| ==> init[i] == nodes[i];
    }
  }

  /** `(string)$node`, or `cleanup_string` of the inner markup for a description. */
  function TextOf(n: Node, clean: bool): string
  {
    if clean then CleanupString(n.text) else n.text
  }

  /** The (language, text) pairs of some elements, in document order. */
  function Texts(lang: string, nodes: seq<Node>, clean: bool): (pairs: seq<(string, string)>)
    ensures |pairs| == |nodes|
  {
    if nodes == [] then []
    else
      var last := nodes[|nodes| - 1];
      Texts(lang, nodes[..|nodes| - 1], clean) + [(lang, TextOf(last, clean))]
  }

  /** Each element gives the pair of the language and its (cleaned-up) text. */
  lemma {:induction false} TextsAt(lang: string, nodes: seq<Node>, clean: bool, i: nat)
    requires i < |nodes|
    ensures Texts(lang, nodes, clean)[i] == (lang, TextOf(nodes[i], clean))
  {
    if i < |nodes| - 1 {
      TextsAt(lang, nodes[..|nodes| - 1], clean, i);
    }
  }

  lemma TextsSnoc(lang: string, nodes: seq<Node>, clean: bool, j: nat)
    requires j < |nodes|
    ensures Texts(lang, nodes[..j + 1], clean) == Texts(lang, nodes[..j], clean) + [(lang, TextOf(nodes[j], clean))]
  {
    assert nodes[..j + 1][..j] == nodes[..j];
  }

  /** The pairs of the `tag` children of every `lang` element. */
  function ChildPairs(langs: seq<Node>, tag: string, clean: bool): seq<(string, string)>
  {
    if langs == [] then []
    else
      var last := langs[|langs| - 1];
      ChildPairs(langs[..|langs| - 1], tag, clean) + Texts(Attr(last, "id"), Children(last, tag), clean)
  }

  /** The pairs of the `tag` children of some `search` elements. */
  function SearchTexts(lang: string, searches: seq<Node>, tag: string): seq<(string, string)>
  {
    if searches == [] then []
    else SearchTexts(lang, searches[..|searches| - 1], tag) + Texts(lang, Children(searches[|searches| - 1], tag), false)
  }

  /** The pairs of the `search/tag` grandchildren of every `lang` element. */
  function SearchPairs(langs: seq<Node>, tag: string): seq<(string, string)>
  {
    if langs == [] then []
    else
      var last := langs[|langs| - 1];
      SearchPairs(langs[..|langs| - 1], tag) + SearchTexts(Attr(last, "id"), Children(last, "search"), tag)
  }

  /** Assigning `m[k] := v` for each pair in turn. */
  function Apply<V>(m: map<string, V>, pairs: seq<(string, V)>): map<string, V>
  {
    if pairs == [] then m
    else
      var last := pairs[|pairs| - 1];
      Apply(m, pairs[..|pairs| - 1])[last.0 := last.1]
  }

  /** The keys after the assignments: the old ones and those of the pairs. */
  lemma {:induction false} ApplyKeys<V>(m: map<string, V>, pairs: seq<(string, V)>, k: string)
    ensures k in Apply(m, pairs) <==> k in m || exists i :: 0 <= i < |pairs| && pairs[i].0 == k
  {
    if pairs != [] {
      var init := pairs[..|pairs| - 1];
      ApplyKeys(m, init, k);
      if exists i :: 0 <= i < |init| && init[i].0 == k {
        var i :| 0 <= i < |init| && init[i].0 == k;
        assert pairs[i].0 == k;
      }
      if exists i :: 0 <= i < |pairs| && pairs[i].0 == k {
        var i :| 0 <= i < |pairs| && pairs[i].0 == k;
        assert i == |pairs| - 1 || init[i].0 == k;
      }
    }
  }

  /** Assigning a list of pairs in two parts is assigning it at once. */
  lemma {:induction false} ApplyAppend<V>(m: map<string, V>, a: seq<(string, V)>, b: seq<(string, V)>)
    ensures Apply(m, a + b) == Apply(Apply(m, a), b)
  {
    if b == [] {
      assert a + b == a;
    } else {
      assert (a + b)[..|a + b| - 1] == a + b[..|b| - 1];
      ApplyAppend(m, a, b[..|b| - 1]);
    }
  }

  lemma ApplySnoc<V>(m: map<string, V>, pairs: seq<(string, V)>, p: (string, V))
    ensures Apply(m, pairs + [p]) == Apply(m, pairs)[p.0 := p.1]
  {
    assert (pairs + [p])[..|pairs|] == pairs;
  }

  /** The last pair with a given key decides its value; a key no pair has
      keeps its old value. */
  lemma {:induction false} ApplyLastWins<V>(m: map<string, V>, pairs: seq<(string, V)>, k: string, i: nat)
    requires i < |pairs| && pairs[i].0 == k
    requires forall j :: i < j < |pairs| ==> pairs[j].0 != k
    ensures k in Apply(m, pairs) && Apply(m, pairs)[k] == pairs[i].1
  {
    if i < |pairs| - 1 {
      ApplyLastWins(m, pairs[..|pairs| - 1], k, i);
    }
  }

  lemma {:induction false} ApplyUntouched<V>(m: map<string, V>, pairs: seq<(string, V)>, k: string)
    requires forall j :: 0 <= j < |pairs| ==> pairs[j].0 != k
    ensures k in Apply(m, pairs) <==> k in m
    ensures k in m ==> Apply(m, pairs)[k] == m[k]
  {
    if pairs != [] {
      ApplyUntouched(m, pairs[..|pairs| - 1], k);
    }
  }

  /** The entry built from one `attr` element. */
  function AttributeSpec(node: Node, schema: string): Attribute
  {
    var langs := Children(node, "lang");
    Attribute(
      Attr(node, "okapi_attr_id"),
      GsEquivs(Children(node, "groundspeak")),
      InternalIds(Children(node, "opencaching"), schema),
      Apply(map[], ChildPairs(langs, "name", false)),
      Apply(map[], ChildPairs(langs, "desc", true)),
      Apply(map[], SearchPairs(langs, "inc")),
      Apply(map[], SearchPairs(langs, "exc")))
  }

  /** Every description of an entry is cleaned up. */
  lemma DescriptionsNormalized(node: Node, schema: string, lang: string)
    requires lang in AttributeSpec(node, schema).descriptions
    ensures Normalized(AttributeSpec(node, schema).descriptions[lang])
  {
    assert AttributeSpec(node, schema).descriptions == Apply(map[], ChildPairs(Children(node, "lang"), "desc", true));
    DescriptionPairsNormalized(Children(node, "lang"), lang);
  }

  lemma DescriptionPairsNormalized(langs: seq<Node>, lang: string)
    requires lang in Apply(map[], ChildPairs(langs, "desc", true))
    ensures Normalized(Apply(map[], ChildPairs(langs, "desc", true))[lang])
  {
    var pairs := ChildPairs(langs, "desc", true);
    ApplyKeys(map[], pairs, lang);
    var i := LastIndexOf(pairs, lang);
    ApplyLastWins(map[], pairs, lang, i);
    CleanPairs(langs, i);
  }

  /** The index of the last pair with a key that some pair has. */
  lemma {:induction false} LastIndexOf<V>(pairs: seq<(string, V)>, k: string) returns (i: nat)
    requires exists j :: 0 <= j < |pairs| && pairs[j].0 == k
    ensures i < |pairs| && pairs[i].0 == k
    ensures forall j :: i < j < |pairs| ==> pairs[j].0 != k
  {
    if pairs[|pairs| - 1].0 == k {
      i := |pairs| - 1;
    } else {
      var init := pairs[..|pairs| - 1];
      assert exists j :: 0 <= j < |init| && init[j].0 == k by {
        var j :| 0 <= j < |pairs| && pairs[j].0 == k;
        assert j < |init| && init[j] == pairs[j];
      }
      i := LastIndexOf(init, k);
    }
  }

  /** Every description pair holds a cleaned-up text. */
  lemma {:induction false} CleanPairs(langs: seq<Node>, i: nat)
    requires i < |ChildPairs(langs, "desc", true)|
    ensures Normalized(ChildPairs(langs, "desc", true)[i].1)
  {
    var init := ChildPairs(langs[..|langs| - 1], "desc", true);
    var last := langs[|langs| - 1];
    var nodes := Children(last, "desc");
    assert ChildPairs(langs, "desc", true) == init + Texts(Attr(last, "id"), nodes, true);
    if i < |init| {
      CleanPairs(langs[..|langs| - 1], i);
    } else {
      TextsAt(Attr(last, "id"), nodes, true, i - |init|);
      CleanupNormalizes(nodes[i - |init|].text);
    }
  }

  /** The (id, entry) pairs of the `attr` elements, in document order. */
  function DictPairs(attrNodes: seq<Node>, schema: string): (pairs: seq<(string, Attribute)>)
    ensures |pairs| == |attrNodes|
  {
    if attrNodes == [] then []
    else
      var last := attrNodes[|attrNodes| - 1];
      DictPairs(attrNodes[..|attrNodes| - 1], schema) + [(Attr(last, "okapi_attr_id"), AttributeSpec(last, schema))]
  }

  lemma {:induction false} DictPairsAt(attrNodes: seq<Node>, schema: string, i: nat)
    requires i < |attrNodes|
    ensures DictPairs(attrNodes, schema)[i] == (Attr(attrNodes[i], "okapi_attr_id"), AttributeSpec(attrNodes[i], schema))
  {
    if i < |attrNodes| - 1 {
      DictPairsAt(attrNodes[..|attrNodes| - 1], schema, i);
    }
  }

  lemma DictPairsSnoc(attrNodes: seq<Node>, schema: string, i: nat)
    requires i < |attrNodes|
    ensures DictPairs(attrNodes[..i + 1], schema)
            == DictPairs(attrNodes[..i], schema) + [(Attr(attrNodes[i], "okapi_attr_id"), AttributeSpec(attrNodes[i], schema))]
  {
    assert attrNodes[..i + 1][..i] == attrNodes[..i];
  }

  /** One more `attr` element stores its entry under its id. */
  lemma DictStep(attrNodes: seq<Node>, schema: string, i: nat)
    requires i < |attrNodes|
    ensures Apply(map[], DictPairs(attrNodes[..i + 1], schema))
            == Apply(map[], DictPairs(attrNodes[..i], schema))[Attr(attrNodes[i], "okapi_attr_id") := AttributeSpec(attrNodes[i], schema)]
  {
    var p := (Attr(attrNodes[i], "okapi_attr_id"), AttributeSpec(attrNodes[i], schema));
    DictPairsSnoc(attrNodes, schema, i);
    ApplySnoc(map[], DictPairs(attrNodes[..i], schema), p);
  }

  /** The dictionary built from a document: entries keyed by `okapi_attr_id`. */
  function DictOf(doc: Node, schema: string): map<string, Attribute>
  {
    Apply(map[], DictPairs(Children(doc, "attr"), schema))
  }

  /** The dictionary has an entry for exactly the ids of the `attr` elements,
      and each holds what the last element with that id describes. */
  lemma DictOfEntries(doc: Node, schema: string, i: nat)
    requires i < |Children(doc, "attr")|
    requires forall j :: i < j < |Children(doc, "attr")| ==>
               Attr(Children(doc, "attr")[j], "okapi_attr_id") != Attr(Children(doc, "attr")[i], "okapi_attr_id")
    ensures var id := Attr(Children(doc, "attr")[i], "okapi_attr_id");
            id in DictOf(doc, schema) && DictOf(doc, schema)[id] == AttributeSpec(Children(doc, "attr")[i], schema)
  {
    var nodes := Children(doc, "attr");
    var pairs := DictPairs(nodes, schema);
    DictPairsAt(nodes, schema, i);
    forall j | i < j < |pairs|
      ensures pairs[j].0 != pairs[i].0
    {
      DictPairsAt(nodes, schema, j);
    }
    ApplyLastWins(map[], pairs, Attr(nodes[i], "okapi_attr_id"), i);
  }

  lemma DictOfKeys(doc: Node, schema: string, id: string)
    ensures id in DictOf(doc, schema) <==>
            exists i :: 0 <= i < |Children(doc, "attr")| && Attr(Children(doc, "attr")[i], "okapi_attr_id") == id
  {
    var nodes := Children(doc, "attr");
    var pairs := DictPairs(nodes, schema);
    ApplyKeys(map[], pairs, id);
    forall i | 0 <= i < |pairs|
      ensures pairs[i].0 == Attr(nodes[i], "okapi_attr_id")
    {
      DictPairsAt(nodes, schema, i);
    }
  }

  // ---------------------------------------------------------------------
  // Building the dictionary, as refresh_from_file does
  // ---------------------------------------------------------------------

  /** `foreach ($nodes as $node) $m[$lang] = (string)$node;` */
  method SetEach(m: map<string, string>, lang: string, nodes: seq<Node>, clean: bool) returns (r: map<string, string>)
    ensures r == Apply(m, Texts(lang, nodes, clean))
  {
    r := m;
    for j := 0 to |nodes|
      invariant r == Apply(m, Texts(lang, nodes[..j], clean))
    {
      TextsSnoc(lang, nodes, clean, j);
      ApplySnoc(m, Texts(lang, nodes[..j], clean), (lang, TextOf(nodes[j], clean)));
      r := r[lang := TextOf(nodes[j], clean)];
    }
    assert nodes[..|nodes|] == nodes;
  }

  /** The `search` loop of one language: its inc and exc captions. */
  method SetCaptions(incs: map<string, string>, excs: map<string, string>, lang: string, searches: seq<Node>)
    returns (incs': map<string, string>, excs': map<string, string>)
    ensures incs' == Apply(incs, SearchTexts(lang, searches, "inc"))
    ensures excs' == Apply(excs, SearchTexts(lang, searches, "exc"))
  {
    incs', excs' := incs, excs;
    for j := 0 to |searches|
      invariant incs' == Apply(incs, SearchTexts(lang, searches[..j], "inc"))
      invariant excs' == Apply(excs, SearchTexts(lang, searches[..j], "exc"))
    {
      assert searches[..j + 1][..j] == searches[..j];
      ApplyAppend(incs, SearchTexts(lang, searches[..j], "inc"), Texts(lang, Children(searches[j], "inc"), false));
      ApplyAppend(excs, SearchTexts(lang, searches[..j], "exc"), Texts(lang, Children(searches[j], "exc"), false));
      incs' := SetEach(incs', lang, Children(searches[j], "inc"), false);
      excs' := SetEach(excs', lang, Children(searches[j], "exc"), false);
    }
    assert searches[..|searches|] == searches;
  }

  /** The per-language loop: names, captions and descriptions. */
  method LangMaps(langs: seq<Node>)
    returns (names: map<string, string>, descs: map<string, string>, incs: map<string, string>, excs: map<string, string>)
    ensures names == Apply(map[], ChildPairs(langs, "name", false))
    ensures descs == Apply(map[], ChildPairs(langs, "desc", true))
    ensures incs == Apply(map[], SearchPairs(langs, "inc"))
    ensures excs == Apply(map[], SearchPairs(langs, "exc"))
  {
    names, descs, incs, excs := map[], map[], map[], map[];
    for i := 0 to |langs|
      invariant names == Apply(map[], ChildPairs(langs[..i], "name", false))
      invariant descs == Apply(map[], ChildPairs(langs[..i], "desc", true))
      invariant incs == Apply(map[], SearchPairs(langs[..i], "inc"))
      invariant excs == Apply(map[], SearchPairs(langs[..i], "exc"))
    {
      assert langs[..i + 1][..i] == langs[..i];
      var lang := Attr(langs[i], "id");
      ApplyAppend(map[], ChildPairs(langs[..i], "name", false), Texts(lang, Children(langs[i], "name"), false));
      ApplyAppend(map[], ChildPairs(langs[..i], "desc", true), Texts(lang, Children(langs[i], "desc"), true));
      ApplyAppend(map[], SearchPairs(langs[..i], "inc"), SearchTexts(lang, Children(langs[i], "search"), "inc"));
      ApplyAppend(map[], SearchPairs(langs[..i], "exc"), SearchTexts(lang, Children(langs[i], "search"), "exc"));
      names := SetEach(names, lang, Children(langs[i], "name"), false);
      incs, excs := SetCaptions(incs, excs, lang, Children(langs[i], "search"));
      descs := SetEach(descs, lang, Children(langs[i], "desc"), true);
    }
    assert langs[..|langs|] == langs;
  }

  /** The `groundspeak` loop. */
  method CollectGsEquivs(gsNodes: seq<Node>) returns (gsEquivs: seq<GsEquiv>)
    ensures gsEquivs == GsEquivs(gsNodes)
  {
    gsEquivs := [];
    for i := 0 to |gsNodes|
      invariant gsEquivs == GsEquivs(gsNodes[..i])
    {
      assert gsNodes[..i + 1][..i] == gsNodes[..i];
      gsEquivs := gsEquivs + [GsEquivOf(gsNodes[i])];
    }
    assert gsNodes[..|gsNodes|] == gsNodes;
  }

  /** The `opencaching` loop: the ids of the local schema. */
  method CollectInternalIds(ocNodes: seq<Node>, schema: string) returns (internalIds: seq<int>)
    ensures internalIds == InternalIds(ocNodes, schema)
  {
    internalIds := [];
    for i := 0 to |ocNodes|
      invariant internalIds == InternalIds(ocNodes[..i], schema)
    {
      assert ocNodes[..i + 1][..i] == ocNodes[..i];
      if Attr(ocNodes[i], "schema") == schema {
        internalIds := internalIds + [NumericPrefix(Attr(ocNodes[i], "id"))];
      }
    }
    assert ocNodes[..|ocNodes|] == ocNodes;
  }

  /** The body of the `attr` loop: one dictionary entry. */
  method BuildAttribute(node: Node, schema: string) returns (attr: Attribute)
    ensures attr.id == Attr(node, "okapi_attr_id")
    ensures attr == AttributeSpec(node, schema)
  {
    var gsEquivs := CollectGsEquivs(Children(node, "groundspeak"));
    var internalIds := CollectInternalIds(Children(node, "opencaching"), schema);
    var names, descs, incs, excs := LangMaps(Children(node, "lang"));
    attr := Attribute(Attr(node, "okapi_attr_id"), gsEquivs, internalIds, names, descs, incs, excs);
  }

  /** One round of the `attr` loop: the entry built and stored under its id. */
  method AddEntry(dict: map<string, Attribute>, node: Node, schema: string) returns (dict': map<string, Attribute>)
    ensures dict' == dict[Attr(node, "okapi_attr_id") := AttributeSpec(node, schema)]
  {
    var attr := BuildAttribute(node, schema);
    dict' := dict[attr.id := attr];
  }

  /** The `attr` loop: each entry stored under its id, later ones replacing earlier ones. */
  method BuildDict(attrNodes: seq<Node>, schema: string) returns (dict: map<string, Attribute>)
    ensures dict == Apply(map[], DictPairs(attrNodes, schema))
  {
    dict := map[];
    for i := 0 to |attrNodes|
      invariant dict == Apply(map[], DictPairs(attrNodes[..i], schema))
    {
      DictStep(attrNodes, schema, i);
      dict := AddEntry(dict, attrNodes[i], schema);
    }
    assert attrNodes[..|attrNodes|] == attrNodes;
  }

  // ---------------------------------------------------------------------
  // The helper's state
  // ---------------------------------------------------------------------

  const RefreshInterval: int := 86400

  /** The helper's static state and the cache entry it shares with other
      requests. `attrDict` and `lastRefreshed` are NULL until initialised
      and are set together. */
  class AttrHelper {
    var attrDict: Option<map<string, Attribute>>
    var lastRefreshed: Option<int>
    var cache: Option<Cached>
    const ocBranch: string

    ghost predicate Valid()
      reads this
    {
      attrDict.Some? <==> lastRefreshed.Some?
    }

    /** A fresh request: nothing loaded yet, the cache as given. */
    constructor(ocBranch: string, cache: Option<Cached>)
      ensures Valid()
      ensures this.ocBranch == ocBranch && this.cache == cache
      ensures attrDict.None? && lastRefreshed.None?
    {
      this.ocBranch := ocBranch;
      this.cache := cache;
      attrDict := None;
      lastRefreshed := None;
    }

    /** What `init_from_cache` leaves: the loaded state when there is one,
        otherwise the cached value, otherwise an empty dictionary refreshed at 0. */
    function Loaded(): (r: Cached)
      reads this
      requires Valid()
      ensures attrDict.Some? ==> r == Cached(attrDict.value, lastRefreshed.value)
      ensures attrDict.None? && cache.None? ==> r == Cached(map[], 0)
      ensures attrDict.None? && cache.Some? ==> r == cache.value
    {
      if attrDict.Some? then Cached(attrDict.value, lastRefreshed.value)
      else if cache.Some? then cache.value
      else Cached(map[], 0)
    }

    /** `refresh_from_file`: the dictionary of the document, stamped `now`,
        stored in the cache and in the helper. */
    method RefreshFromFile(doc: Node, now: int)
      modifies this
      ensures Valid()
      ensures attrDict == Some(DictOf(doc, Schema(ocBranch)))
      ensures lastRefreshed == Some(now)
      ensures cache == Some(Cached(DictOf(doc, Schema(ocBranch)), now))
    {
      var dict := BuildDict(Children(doc, "attr"), Schema(ocBranch));
      var cachedValue := Cached(dict, now);
      cache := Some(cachedValue);
      attrDict := Some(cachedValue.attrDict);
      lastRefreshed := Some(cachedValue.lastRefreshed);
    }

    /** `init_from_cache`: nothing to do once loaded; otherwise load the
        cached value, or an empty dictionary refreshed at 0. */
    method InitFromCache()
      requires Valid()
      modifies this`attrDict, this`lastRefreshed
      ensures Valid() && attrDict.Some?
      ensures old(attrDict).Some? ==> attrDict == old(attrDict) && lastRefreshed == old(lastRefreshed)
      ensures Loaded() == old(Loaded())
    {
      if attrDict.Some? {
        return;
      }
      var cachedValue := if cache.Some? then cache.value else Cached(map[], 0);
      attrDict := Some(cachedValue.attrDict);
      lastRefreshed := Some(cachedValue.lastRefreshed);
    }

    /** `refresh_if_stale` at time `now`; `download` is the document the
        fetch returns, None when it fails. A refresh is attempted when the
        loaded state is more than a day old; the administrators are mailed
        when it is still more than three days old afterwards. */
    method RefreshIfStale(now: int, download: Option<Node>) returns (mailedAdmins: bool)
      requires Valid()
      modifies this
      ensures Valid() && lastRefreshed.Some?
      ensures var stale := old(Loaded()).lastRefreshed < now - RefreshInterval;
              if stale && download.Some? then
                && attrDict == Some(DictOf(download.value, Schema(ocBranch)))
                && lastRefreshed == Some(now)
                && cache == Some(Cached(DictOf(download.value, Schema(ocBranch)), now))
              else
                && Loaded() == old(Loaded())
                && cache == old(cache)
      ensures mailedAdmins <==> lastRefreshed.value < now - 3 * RefreshInterval
      ensures mailedAdmins <==> old(Loaded()).lastRefreshed < now - 3 * RefreshInterval && download.None?
    {
      InitFromCache();
      if lastRefreshed.value < now - RefreshInterval {
        if download.Some? {
          RefreshFromFile(download.value, now);
        }
      }
      mailedAdmins := lastRefreshed.value < now - 3 * RefreshInterval;
    }

    /** `get_attrdict`: the dictionary after initialisation. */
    method GetAttrDict() returns (dict: map<string, Attribute>)
      requires Valid()
      modifies this`attrDict, this`lastRefreshed
      ensures Valid()
      ensures dict == old(Loaded()).attrDict && attrDict == Some(dict)
      ensures Loaded() == old(Loaded())
    {
      InitFromCache();
      dict := attrDict.value;
    }
  }
}
