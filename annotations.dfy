/** The annotation parser of the manifest generator (`parseJsDoc`, lines
    89-139): how one parsed documentation comment becomes an entry. The
    comment parser itself is not modelled; its result is a `Doc`. */
module Annotations {
  import opened Text
  import opened JsObjects
  import opened Versioning

  /** One tag of a parsed comment; an absent name or description is "". */
  datatype Tag = Tag(title: string, name: string, description: string)

  /** A parsed comment: its leading text and its tags, in order. */
  datatype Doc = Doc(description: string, tags: seq<Tag>)

  /** A manifest entry. */
  datatype Entry = Entry(
    id: string,
    name: string,
    version: Version,
    description: string,
    tags: seq<string>,
    category: string,
    props: seq<Prop>,
    importPath: string,
    filePath: string)

  /** The comments the generator considers: those with a `wizard` tag. */
  predicate IsWizard(doc: Doc) {
    exists i :: 0 <= i < |doc.tags| && doc.tags[i].title == "wizard"
  }

  // ---------------------------------------------------------------- ids

  /** The first replacement of the id derivation: a hyphen between every
      ASCII lower-case letter and the upper-case letter after it. */
  function HyphenateCase(s: string): (r: string)
    ensures |s| > 0 ==> |r| > 0 && r[0] == s[0]
    ensures forall i :: 0 <= i < |r| - 1 ==> !(IsLower(r[i]) && IsUpper(r[i + 1]))
  {
    if |s| < 2 then s else CaseStep(s) + HyphenateCase(s[1..])
  }

  /** The first character, followed by a hyphen when it and the next one
      form a lower-to-upper boundary. */
  function CaseStep(s: string): (r: string)
    requires |s| >= 2
  {
    if IsLower(s[0]) && IsUpper(s[1]) then [s[0], '-'] else [s[0]]
  }

  /** What the hyphenation puts at the seam of `a + b`. */
  function Seam(a: string, b: string): string {
    if a != [] && b != [] && IsLower(a[|a| - 1]) && IsUpper(b[0]) then ['-'] else []
  }

  predicate IsSep(c: char) {
    IsSpace(c) || c == '_'
  }

  /** The second replacement: every maximal run of white space and
      underscores becomes one hyphen. */
  function CollapseSeps(s: string): (r: string)
    ensures forall i :: 0 <= i < |r| ==> !IsSep(r[i])
  {
    if s == [] then []
    else if IsSep(s[0]) then
      if |s| > 1 && IsSep(s[1]) then CollapseSeps(s[1..]) else ['-'] + CollapseSeps(s[1..])
    else [s[0]] + CollapseSeps(s[1..])
  }

  /** The id derived from a name. */
  function Slug(name: string): (r: string)
    ensures forall i :: 0 <= i < |r| ==> !IsUpper(r[i]) && !IsSep(r[i])
  {
    Lower(CollapseSeps(HyphenateCase(name)))
  }

  /** An id is its own id: deriving the id of an id changes nothing. */
  lemma SlugIdempotent(name: string)
    ensures Slug(Slug(name)) == Slug(name)
  {
    var s := Slug(name);
    HyphenateNoBoundary(s);
    CollapseNoSeps(s);
    assert Lower(s) == s;
  }

  /** A string without separators passes the collapse unchanged. */
  lemma {:induction false} CollapseNoSeps(s: string)
    requires forall i :: 0 <= i < |s| ==> !IsSep(s[i])
    ensures CollapseSeps(s) == s
  {
    CollapseAfter(s, []);
    assert s + [] == s;
  }

  /** A string with no lower-to-upper boundary gains no hyphen. */
  lemma {:induction false} HyphenateNoBoundary(s: string)
    requires forall i :: 0 <= i < |s| - 1 ==> !(IsLower(s[i]) && IsUpper(s[i + 1]))
    ensures HyphenateCase(s) == s
  {
    if |s| >= 2 {
      HyphenateNoBoundary(s[1..]);
    }
  }

  /** The hyphenation of a concatenation: each part on its own, with a
      hyphen at the seam exactly when the seam is a lower-to-upper boundary. */
  lemma {:induction false} HyphenateAppend(a: string, b: string)
    ensures HyphenateCase(a + b) == HyphenateCase(a) + Seam(a, b) + HyphenateCase(b)
  {
    if a == [] {
      assert a + b == b;
    } else if b == [] {
      assert a + b == a;
    } else if |a| == 1 {
      assert (a + b)[1..] == b;
      assert HyphenateCase(a + b) == CaseStep(a + b) + HyphenateCase(b);
    } else {
      var t := a[1..];
      assert (a + b)[1..] == t + b;
      HyphenateAppend(t, b);
      var x := CaseStep(a);
      assert CaseStep(a + b) == x;
      assert HyphenateCase(a + b) == x + HyphenateCase(t + b);
      assert HyphenateCase(a) == x + HyphenateCase(t);
      assert Seam(t, b) == Seam(a, b);
      var ht, m, hb := HyphenateCase(t), Seam(a, b), HyphenateCase(b);
      assert x + (ht + m + hb) == (x + ht) + m + hb;
    }
  }

  /** A separator-free prefix passes the collapse unchanged. */
  lemma {:induction false} CollapseAfter(a: string, b: string)
    requires forall i :: 0 <= i < |a| ==> !IsSep(a[i])
    ensures CollapseSeps(a + b) == a + CollapseSeps(b)
  {
    if a == [] {
      assert a + b == b;
    } else {
      assert (a + b)[1..] == a[1..] + b;
      CollapseAfter(a[1..], b);
    }
  }

  /** One separator before a word becomes one hyphen. */
  lemma CollapseOne(c: char, b: string)
    requires IsSep(c) && (b == [] || !IsSep(b[0]))
    ensures CollapseSeps([c] + b) == ['-'] + CollapseSeps(b)
  {
    assert ([c] + b)[1..] == b;
  }

  /** A capitalised word: an upper-case letter followed by lower-case ones. */
  predicate IsWord(w: string) {
    |w| >= 1 && IsUpper(w[0]) && forall i :: 1 <= i < |w| ==> IsLower(w[i])
  }

  lemma LowerAppend(a: string, b: string)
    ensures Lower(a + b) == Lower(a) + Lower(b)
  {
  }

  /** A single word is lower-cased. */
  lemma SlugOfWord(w: string)
    requires IsWord(w)
    ensures Slug(w) == Lower(w)
  {
    HyphenateNoBoundary(w);
    CollapseNoSeps(w);
  }

  /** Camel case: a word followed directly by a capital gets a hyphen
      (`DeviceCard` becomes `device-card`). */
  lemma SlugOfCamel(w: string, rest: string)
    requires IsWord(w) && |w| >= 2 && rest != [] && IsUpper(rest[0])
    ensures Slug(w + rest) == Lower(w) + ['-'] + Slug(rest)
  {
    var h := HyphenateCase(rest);
    HyphenateCamel(w, rest);
    WordHasNoSeps(w);
    CollapseCamel(w, h);
    LowerJoined(w, CollapseSeps(h));
  }

  /** Spaced words: a word, one space and the rest become the word, a
      hyphen and the id of the rest (`Mock Data Sets` becomes
      `mock-data-sets`). */
  lemma SlugOfSpaced(w: string, rest: string)
    requires IsWord(w) && rest != [] && !IsSep(rest[0])
    ensures Slug(w + [' '] + rest) == Lower(w) + ['-'] + Slug(rest)
  {
    var h := HyphenateCase(rest);
    HyphenateSpaced(w, rest);
    WordHasNoSeps(w);
    CollapseSpaced(w, h);
    LowerJoined(w, CollapseSeps(h));
  }

  lemma HyphenateCamel(w: string, rest: string)
    requires IsWord(w) && |w| >= 2 && rest != [] && IsUpper(rest[0])
    ensures HyphenateCase(w + rest) == w + ['-'] + HyphenateCase(rest)
  {
    HyphenateNoBoundary(w);
    HyphenateAppend(w, rest);
    assert Seam(w, rest) == ['-'];
  }

  lemma HyphenateSpaced(w: string, rest: string)
    requires IsWord(w) && rest != []
    ensures HyphenateCase(w + [' '] + rest) == w + [' '] + HyphenateCase(rest)
  {
    var ws := w + [' '];
    HyphenateWordSpace(w);
    HyphenateAppend(ws, rest);
    assert Seam(ws, rest) == [];
    var h := HyphenateCase(rest);
    assert ws + [] + h == ws + h;
  }

  lemma HyphenateWordSpace(w: string)
    requires IsWord(w)
    ensures HyphenateCase(w + [' ']) == w + [' ']
  {
    var sp: string := [' '];
    HyphenateNoBoundary(w);
    assert HyphenateCase(sp) == sp;
    HyphenateAppend(w, sp);
    assert Seam(w, sp) == [];
    assert w + [] + sp == w + sp;
  }

  lemma WordHasNoSeps(w: string)
    requires IsWord(w)
    ensures forall i :: 0 <= i < |w| ==> !IsSep(w[i])
  {
  }

  lemma CollapseCamel(w: string, h: string)
    requires forall i :: 0 <= i < |w| ==> !IsSep(w[i])
    ensures CollapseSeps(w + ['-'] + h) == w + ['-'] + CollapseSeps(h)
  {
    var x := w + ['-'];
    assert forall i :: 0 <= i < |x| ==> !IsSep(x[i]);
    CollapseAfter(x, h);
  }

  lemma CollapseSpaced(w: string, h: string)
    requires forall i :: 0 <= i < |w| ==> !IsSep(w[i])
    requires h == [] || !IsSep(h[0])
    ensures CollapseSeps(w + [' '] + h) == w + ['-'] + CollapseSeps(h)
  {
    assert w + [' '] + h == w + ([' '] + h);
    CollapseAfter(w, [' '] + h);
    CollapseOne(' ', h);
    assert w + (['-'] + CollapseSeps(h)) == w + ['-'] + CollapseSeps(h);
  }

  lemma LowerJoined(w: string, c: string)
    ensures Lower(w + ['-'] + c) == Lower(w) + ['-'] + Lower(c)
  {
    var l := Lower(w + ['-'] + c);
    assert l == Lower(w) + ['-'] + Lower(c);
  }

  // --------------------------------------------------------------- tags

  function TrimEach(ps: seq<string>): (r: seq<string>)
    ensures |r| == |ps| && forall i :: 0 <= i < |ps| ==> r[i] == Trim(ps[i])
  {
    seq(|ps|, i requires 0 <= i < |ps| => Trim(ps[i]))
  }

  /** `filter(Boolean)` on strings: the non-empty ones, in order. */
  function NonEmpty(ps: seq<string>): (r: seq<string>)
    ensures forall i :: 0 <= i < |r| ==> r[i] != [] && r[i] in ps
  {
    if ps == [] then []
    else NonEmpty(ps[..|ps| - 1]) + if ps[|ps| - 1] != [] then [ps[|ps| - 1]] else []
  }

  /** The value of a `tags` tag. */
  function ParseTags(desc: string): (r: seq<string>)
    ensures forall i :: 0 <= i < |r| ==> r[i] != [] && IsTrimmed(r[i]) && ',' !in r[i]
  {
    NonEmpty(TrimEach(Split(desc, ',')))
  }

  lemma {:induction false} NonEmptyOfNonEmpty(ps: seq<string>)
    requires forall i :: 0 <= i < |ps| ==> ps[i] != []
    ensures NonEmpty(ps) == ps
  {
    if ps != [] {
      NonEmptyOfNonEmpty(ps[..|ps| - 1]);
    }
  }

  /** The pieces of `Join(items, sep + pad)` between the `sep`s. */
  function Padded(items: seq<string>, pad: string): (r: seq<string>)
    requires |items| > 0
    ensures |r| == |items| && r[0] == items[0]
    ensures forall i :: 0 < i < |items| ==> r[i] == pad + items[i]
  {
    [items[0]] + seq(|items| - 1, i requires 0 <= i < |items| - 1 => pad + items[i + 1])
  }

  lemma {:induction false} JoinPadded(items: seq<string>, sep: string, pad: string)
    requires |items| > 0
    ensures Join(items, sep + pad) == Join(Padded(items, pad), sep)
  {
    if |items| > 1 {
      JoinPadded(items[1..], sep, pad);
      var p := Padded(items, pad);
      var q := Padded(items[1..], pad);
      assert p[1..] == [pad + q[0]] + q[1..];
      JoinShift(q, pad, sep);
      assert Join(items, sep + pad) == items[0] + (sep + pad) + Join(items[1..], sep + pad);
      assert Join(p, sep) == p[0] + sep + Join(p[1..], sep);
    }
  }

  /** Prefixing the first piece is prefixing the joined string. */
  lemma JoinShift(q: seq<string>, pad: string, sep: string)
    requires |q| > 0
    ensures Join([pad + q[0]] + q[1..], sep) == pad + Join(q, sep)
  {
    var q' := [pad + q[0]] + q[1..];
    if |q| > 1 {
      assert q'[1..] == q[1..];
    } else {
      assert q' == [pad + q[0]];
    }
  }

  /** Splitting items joined by a separator character and a padding gives
      the padded items back. */
  lemma SplitPadded(items: seq<string>, c: char, pad: string)
    requires |items| > 0
    requires forall i :: 0 <= i < |items| ==> c !in items[i]
    requires c !in pad
    ensures Split(Join(items, [c] + pad), c) == Padded(items, pad)
  {
    JoinPadded(items, [c], pad);
    var p := Padded(items, pad);
    forall i | 0 <= i < |p|
      ensures c !in p[i]
    {
      if i > 0 {
        assert p[i] == pad + items[i];
      }
    }
    JoinSplit(p, c);
  }

  /** Trimming the padded pieces gives the items back. */
  lemma TrimPaddedItems(items: seq<string>, pad: string)
    requires |items| > 0
    requires forall i :: 0 <= i < |items| ==> IsTrimmed(items[i])
    requires AllSpace(pad)
    ensures TrimEach(Padded(items, pad)) == items
  {
    var p := Padded(items, pad);
    forall i | 0 <= i < |p|
      ensures Trim(p[i]) == items[i]
    {
      if i == 0 {
        TrimOfTrimmed(items[0]);
      } else {
        assert p[i] == pad + items[i] + [];
        TrimPadded(pad, items[i], []);
      }
    }
  }

  /** Writing tags back joined by a comma and any white-space padding, and
      reading them again, gives the same tags, provided each is non-empty,
      trimmed and free of commas. */
  lemma TagsRoundTrip(items: seq<string>, pad: string)
    requires forall i :: 0 <= i < |items| ==> items[i] != [] && IsTrimmed(items[i]) && ',' !in items[i]
    requires AllSpace(pad)
    ensures ParseTags(Join(items, [','] + pad)) == items
  {
    if items == [] {
      assert Split([], ',') == [[]];
      assert TrimEach([[]]) == [[]];
      assert NonEmpty([[]]) == NonEmpty([]) + [];
    } else {
      assert ',' !in pad;
      SplitPadded(items, ',', pad);
      TrimPaddedItems(items, pad);
      NonEmptyOfNonEmpty(items);
    }
  }

  // ----------------------------------------------------------- category

  /** The value of a `category` tag. */
  function NormalizeCategory(desc: string): (r: string)
    ensures IsTrimmed(r)
    ensures forall i :: 0 <= i < |r| ==> !IsUpper(r[i])
  {
    Trim(Lower(desc))
  }

  /** Normalising a normalised category changes nothing. */
  lemma NormalizeCategoryIdempotent(desc: string)
    ensures NormalizeCategory(NormalizeCategory(desc)) == NormalizeCategory(desc)
  {
    var c := NormalizeCategory(desc);
    assert Lower(c) == c;
    TrimOfTrimmed(c);
  }

  // -------------------------------------------------------------- props

  /** `split(/(?:\r?\n|^)- /)`: the separator is `- ` at the very start, or
      `- ` after a line break. */
  function PropPieces(desc: string): (r: seq<string>)
    ensures |r| >= 1
  {
    if Marker(desc) then [[]] + SplitAtItems(desc[2..]) else SplitAtItems(desc)
  }

  /** The text starts with `- `. */
  predicate Marker(s: string) {
    |s| >= 2 && s[0] == '-' && s[1] == ' '
  }

  /** The text starts with `\n- `. */
  predicate ItemBreak(s: string) {
    |s| >= 3 && s[0] == '\n' && s[1] == '-' && s[2] == ' '
  }

  /** The text starts with `\r\n- `. */
  predicate CrItemBreak(s: string) {
    |s| >= 4 && s[0] == '\r' && s[1] == '\n' && s[2] == '-' && s[3] == ' '
  }

  /** The split at the line-break forms of the separator, scanning left to
      right and resuming after each separator. */
  function SplitAtItems(s: string): (r: seq<string>)
    ensures |r| >= 1
  {
    if s == [] then [[]]
    else if ItemBreak(s) then [[]] + SplitAtItems(s[3..])
    else if CrItemBreak(s) then [[]] + SplitAtItems(s[4..])
    else
      var rest := SplitAtItems(s[1..]);
      [[s[0]] + rest[0]] + rest[1..]
  }

  /** `split(/\r?\n/)`. */
  function SplitLines(s: string): (r: seq<string>)
    ensures |r| >= 1
  {
    if s == [] then [[]]
    else if s[0] == '\n' then [[]] + SplitLines(s[1..])
    else if |s| >= 2 && s[0] == '\r' && s[1] == '\n' then [[]] + SplitLines(s[2..])
    else
      var rest := SplitLines(s[1..]);
      [[s[0]] + rest[0]] + rest[1..]
  }

  function StripItemMarker(key: string): string {
    if Marker(key) then key[2..] else key
  }

  /** One line of a prop: split at the first colon, both sides trimmed, kept
      only when both are non-empty. */
  function LinePair(line: string): (r: Option<Pair>)
    ensures r.Some? ==> r.value.value != [] && IsTrimmed(r.value.value)
  {
    match Find(line, ":")
    case None => None
    case Some(i) =>
      var key := Trim(line[..i]);
      var value := Trim(line[i + 1..]);
      if key != [] && value != [] then Some(Pair(StripItemMarker(key), value)) else None
  }

  /** The object the lines of one piece produce: its keys distinct and in
      the order objects list them, no `__proto__` among them, and every
      value non-empty and trimmed. */
  function PropOf(lines: seq<string>): (r: Prop)
    ensures DistinctKeys(r) && KeyOrdered(r) && ProtoKey !in Keys(r)
    ensures forall i :: 0 <= i < |r| ==> r[i].value != [] && IsTrimmed(r[i].value)
  {
    if lines == [] then []
    else
      var prev := PropOf(lines[..|lines| - 1]);
      match LinePair(lines[|lines| - 1])
      case None => prev
      case Some(pair) =>
        SetKeyKeepsValues(prev, pair);
        SetKey(prev, pair.key, pair.value)
  }

  /** Assigning a non-empty, trimmed value keeps every value of a prop
      non-empty and trimmed, and keeps `__proto__` out of its keys. */
  lemma SetKeyKeepsValues(p: Prop, q: Pair)
    requires DistinctKeys(p) && KeyOrdered(p) && ProtoKey !in Keys(p)
    requires forall i :: 0 <= i < |p| ==> p[i].value != [] && IsTrimmed(p[i].value)
    requires q.value != [] && IsTrimmed(q.value)
    ensures ProtoKey !in Keys(SetKey(p, q.key, q.value))
    ensures forall i :: 0 <= i < |SetKey(p, q.key, q.value)| ==>
      SetKey(p, q.key, q.value)[i].value != [] && IsTrimmed(SetKey(p, q.key, q.value)[i].value)
  {
    var r := SetKey(p, q.key, q.value);
    forall i | 0 <= i < |r|
      ensures r[i].value != [] && IsTrimmed(r[i].value)
    {
      if r[i].key != q.key {
        var j :| 0 <= j < |p| && p[j] == r[i];
      }
    }
  }

  /** A blank piece is dropped; any other piece yields an object, possibly
      an empty one. */
  function PieceProp(piece: string): Option<Prop> {
    var t := Trim(piece);
    if t == [] then None else Some(PropOf(SplitLines(t)))
  }

  function KeepProps(pieces: seq<string>): (r: seq<Prop>)
    ensures forall i :: 0 <= i < |r| ==> DistinctKeys(r[i]) && KeyOrdered(r[i])
  {
    if pieces == [] then []
    else
      KeepProps(pieces[..|pieces| - 1]) +
        match PieceProp(pieces[|pieces| - 1]) case None => [] case Some(p) => [p]
  }

  /** The value of a non-empty `props` tag. */
  function ParseProps(desc: string): (r: seq<Prop>)
    ensures forall i :: 0 <= i < |r| ==> DistinctKeys(r[i]) && KeyOrdered(r[i])
  {
    KeepProps(PropPieces(desc))
  }

  // ---------------------------------------------- props round trip

  /** A line as the props format writes it. */
  function RenderLine(p: Pair): string {
    p.key + ": " + p.value
  }

  function RenderLines(p: Prop): (r: seq<string>)
    ensures |r| == |p| && forall i :: 0 <= i < |p| ==> r[i] == RenderLine(p[i])
  {
    seq(|p|, i requires 0 <= i < |p| => RenderLine(p[i]))
  }

  /** One prop: its lines joined by line breaks. */
  function RenderProp(p: Prop): string {
    Join(RenderLines(p), "\n")
  }

  function RenderAll(ps: seq<Prop>): (r: seq<string>)
    ensures |r| == |ps| && forall i :: 0 <= i < |ps| ==> r[i] == RenderProp(ps[i])
  {
    seq(|ps|, i requires 0 <= i < |ps| => RenderProp(ps[i]))
  }

  /** A props body: each prop introduced by `- ` at the start of a line. */
  function RenderProps(ps: seq<Prop>): string {
    "- " + Join(RenderAll(ps), "\n- ")
  }

  /** A pair the format can carry: a non-empty trimmed key with no colon, no
      line break, no leading `- ` and other than `__proto__`, and a non-empty
      trimmed value with no line break (it may contain colons). */
  predicate CleanPair(p: Pair) {
    && p.key != [] && IsTrimmed(p.key) && ':' !in p.key && '\n' !in p.key && !Marker(p.key)
    && p.key != ProtoKey
    && p.value != [] && IsTrimmed(p.value) && '\n' !in p.value
  }

  /** A prop the format can carry unchanged: clean pairs under distinct
      keys, listed in the order an object lists them. */
  predicate CleanProp(p: Prop) {
    |p| > 0 && (forall i :: 0 <= i < |p| ==> CleanPair(p[i])) && DistinctKeys(p) && KeyOrdered(p)
  }

  /** A line with no line break that does not end in a carriage return. */
  predicate CleanLine(l: string) {
    '\n' !in l && (l == [] || l[|l| - 1] != '\r')
  }

  function Prepend(x: string, r: seq<string>): seq<string>
    requires |r| >= 1
  {
    [x + r[0]] + r[1..]
  }

  lemma PrependTwice(x: string, y: string, r: seq<string>)
    requires |r| >= 1
    ensures Prepend(x, Prepend(y, r)) == Prepend(x + y, r)
  {
    assert x + (y + r[0]) == (x + y) + r[0];
  }

  /** Text with no line break is never split, whatever follows it (the
      carriage-return condition keeps a following `\n- ` from being read as
      `\r\n- `). */
  lemma {:induction false} ItemsAfterPlain(a: string, t: string)
    requires CleanLine(a)
    ensures SplitAtItems(a + t) == Prepend(a, SplitAtItems(t))
  {
    var r := SplitAtItems(t);
    if a == [] {
      assert a + t == t;
      assert [] + r[0] == r[0];
      assert [r[0]] + r[1..] == r;
    } else {
      var s := a + t;
      assert s[0] == a[0];
      assert |a| >= 2 ==> s[1] == a[1];
      assert !ItemBreak(s) && !CrItemBreak(s);
      assert s[1..] == a[1..] + t;
      ItemsAfterPlain(a[1..], t);
      assert [a[0]] + (a[1..] + r[0]) == a + r[0];
    }
  }

  /** A line break not followed by `- ` is kept inside the piece. */
  lemma ItemsAfterBreak(t: string)
    requires !Marker(t)
    ensures SplitAtItems("\n" + t) == Prepend("\n", SplitAtItems(t))
  {
    var s := "\n" + t;
    assert s[1..] == t;
    assert |t| >= 2 ==> s[1] == t[0] && s[2] == t[1];
    assert !ItemBreak(s) && !CrItemBreak(s);
  }

  /** `\n- ` ends a piece. */
  lemma ItemsAtSeparator(t: string)
    ensures SplitAtItems("\n- " + t) == [[]] + SplitAtItems(t)
  {
    var s := "\n- " + t;
    assert ItemBreak(s);
    assert s[3..] == t;
  }

  lemma JoinFront(parts: seq<string>, sep: string)
    requires |parts| >= 2
    ensures Join(parts, sep) == parts[0] + sep + Join(parts[1..], sep)
  {
  }

  /** The joined lines of a prop are one piece, whatever follows them. */
  lemma {:induction false} ItemsOfLines(lines: seq<string>, t: string)
    requires |lines| >= 1
    requires forall i :: 0 <= i < |lines| ==> CleanLine(lines[i])
    requires forall i :: 0 < i < |lines| ==> |lines[i]| >= 2 && !Marker(lines[i])
    ensures SplitAtItems(Join(lines, "\n") + t) == Prepend(Join(lines, "\n"), SplitAtItems(t))
  {
    if |lines| == 1 {
      ItemsAfterPlain(lines[0], t);
    } else {
      var l0, more := lines[0], lines[1..];
      var j := Join(more, "\n");
      JoinFront(lines, "\n");
      assert Join(lines, "\n") + t == l0 + ("\n" + (j + t));
      ItemsAfterPlain(l0, "\n" + (j + t));
      assert !Marker(j + t) by {
        if |more| >= 2 {
          JoinFront(more, "\n");
        }
        assert (j + t)[0] == more[0][0] && (j + t)[1] == more[0][1];
      }
      ItemsAfterBreak(j + t);
      ItemsOfLines(more, t);
      var r := SplitAtItems(t);
      PrependTwice(j, [], r);
      PrependTwice("\n", j, r);
      PrependTwice(l0, "\n" + j, r);
      assert l0 + ("\n" + j) == l0 + "\n" + j;
    }
  }

  lemma CleanLines(p: Prop)
    requires CleanProp(p)
    ensures forall i :: 0 <= i < |p| ==> CleanLine(RenderLines(p)[i])
    ensures forall i :: 0 <= i < |p| ==> |RenderLines(p)[i]| >= 2 && !Marker(RenderLines(p)[i])
  {
    forall i | 0 <= i < |p|
      ensures CleanLine(RenderLines(p)[i])
      ensures |RenderLines(p)[i]| >= 2 && !Marker(RenderLines(p)[i])
    {
      CleanLineOf(p[i]);
    }
  }

  lemma CleanLineOf(q: Pair)
    requires CleanPair(q)
    ensures CleanLine(RenderLine(q))
    ensures |RenderLine(q)| >= 2 && !Marker(RenderLine(q))
  {
    var l := RenderLine(q);
    assert l[|l| - 1] == q.value[|q.value| - 1];
    assert '\n' !in l by {
      assert l == q.key + (": " + q.value);
    }
    assert l[0] == q.key[0];
    if |q.key| == 1 {
      assert l[1] == ':';
    } else {
      assert l[1] == q.key[1];
    }
  }

  /** A rendered prop is one piece, whatever follows it. */
  lemma ItemsOfProp(p: Prop, t: string)
    requires CleanProp(p)
    ensures SplitAtItems(RenderProp(p) + t) == Prepend(RenderProp(p), SplitAtItems(t))
  {
    CleanLines(p);
    ItemsOfLines(RenderLines(p), t);
  }

  /** The pieces of the rendered props, after the leading `- `. */
  lemma {:induction false} ItemsOfRendered(ps: seq<Prop>)
    requires |ps| >= 1
    requires forall i :: 0 <= i < |ps| ==> CleanProp(ps[i])
    ensures SplitAtItems(Join(RenderAll(ps), "\n- ")) == RenderAll(ps)
  {
    var rs := RenderAll(ps);
    if |ps| == 1 {
      ItemsOfProp(ps[0], []);
      assert rs[0] + [] == rs[0];
    } else {
      JoinFront(rs, "\n- ");
      assert RenderAll(ps[1..]) == rs[1..];
      var j := Join(rs[1..], "\n- ");
      assert Join(rs, "\n- ") == rs[0] + ("\n- " + j);
      ItemsOfProp(ps[0], "\n- " + j);
      ItemsAtSeparator(j);
      ItemsOfRendered(ps[1..]);
      assert rs[0] + [] == rs[0];
      assert [rs[0]] + rs[1..] == rs;
    }
  }

  lemma {:induction false} KeepPropsAppend(a: seq<string>, b: seq<string>)
    ensures KeepProps(a + b) == KeepProps(a) + KeepProps(b)
    decreases |b|
  {
    if b == [] {
      assert a + b == a;
    } else {
      var bs := b[..|b| - 1];
      assert (a + b)[..|a + b| - 1] == a + bs;
      assert (a + b)[|a + b| - 1] == b[|b| - 1];
      KeepPropsAppend(a, bs);
    }
  }

  /** `split(/\r?\n/)` undoes the joining of clean lines. */
  lemma {:induction false} LinesOfJoin(lines: seq<string>)
    requires |lines| >= 1
    requires forall i :: 0 <= i < |lines| ==> CleanLine(lines[i])
    ensures SplitLines(Join(lines, "\n")) == lines
  {
    if |lines| == 1 {
      LinesNoBreak(lines[0]);
    } else {
      var tail := lines[1..];
      assert forall i :: 0 <= i < |tail| ==> CleanLine(tail[i]) by {
        forall i | 0 <= i < |tail| ensures CleanLine(tail[i]) {
          assert tail[i] == lines[i + 1];
        }
      }
      var rest := Join(tail, "\n");
      var t := "\n" + rest;
      calc {
        SplitLines(Join(lines, "\n"));
        == { JoinFront(lines, "\n"); AppendAssoc(lines[0], "\n", rest); }
        SplitLines(lines[0] + t);
        == { LinesOfPlain(lines[0], t); assert t[1..] == rest; }
        [lines[0]] + SplitLines(rest);
        == { LinesOfJoin(tail); }
        [lines[0]] + tail;
      }
      assert [lines[0]] + tail == lines;
    }
  }

  lemma {:induction false} LinesNoBreak(a: string)
    requires '\n' !in a
    ensures SplitLines(a) == [a]
  {
    if a != [] {
      LinesNoBreak(a[1..]);
      assert |a| >= 2 ==> a[1] != '\n';
      assert [a[0]] + a[1..] == a;
    }
  }

  /** A clean line followed by a line break is one line. */
  lemma {:induction false} LinesOfPlain(a: string, t: string)
    requires CleanLine(a) && t != [] && t[0] == '\n'
    ensures SplitLines(a + t) == [a] + SplitLines(t[1..])
  {
    var s := a + t;
    if a == [] {
      assert s == t;
    } else {
      assert s[0] == a[0];
      assert |a| >= 2 ==> s[1] == a[1];
      assert |a| == 1 ==> s[1] == '\n' && a[0] != '\r';
      assert s[1..] == a[1..] + t;
      LinesOfPlain(a[1..], t);
      assert [a[0]] + a[1..] == a;
    }
  }

  /** A rendered line reads back as its pair. */
  lemma LinePairOf(q: Pair)
    requires CleanPair(q)
    ensures LinePair(RenderLine(q)) == Some(q)
  {
    var l := RenderLine(q);
    var k := |q.key|;
    assert l[k] == ':';
    assert OccursAt(l, ":", k) by {
      assert l[k..k + 1] == [l[k]];
    }
    forall j: nat | j < k
      ensures !OccursAt(l, ":", j)
    {
      assert l[j] == q.key[j];
      assert j + 1 <= |l| && l[j..j + 1] == [l[j]];
    }
    assert Find(l, ":") == Some(k);
    assert l[..k] == q.key;
    TrimOfTrimmed(q.key);
    assert l[k + 1..] == " " + q.value + [];
    TrimPadded(" ", q.value, []);
    assert !Marker(q.key);
  }

  /** The lines of a clean prop whose keys are in object order read back as
      the prop. */
  lemma {:induction false} PropOfLines(p: Prop)
    requires (forall i :: 0 <= i < |p| ==> CleanPair(p[i])) && DistinctKeys(p) && KeyOrdered(p)
    ensures PropOf(RenderLines(p)) == p
  {
    if p != [] {
      var n := |p| - 1;
      var lines := RenderLines(p);
      RenderLinesPrefix(p, n);
      OrderedPrefix(p, n);
      PropOfLines(p[..n]);
      LinePairOf(p[n]);
      FreshKey(p);
      FrontLast(p);
      PropOfStep(lines, p[n]);
    }
  }

  /** A line for an array index read after lines with no index among their
      keys is listed ahead of them: `- b: x` then `1: y` gives the object
      `{1: y, b: x}`. */
  lemma IndexLineReadFirst(p: Prop, q: Pair)
    requires (forall i :: 0 <= i < |p| ==> CleanPair(p[i]) && !IsIndexKey(p[i].key)) && DistinctKeys(p)
    requires CleanPair(q) && IsIndexKey(q.key) && q.key !in Keys(p)
    ensures PropOf(RenderLines(p + [q])) == [q] + p
  {
    var all := p + [q];
    var lines := RenderLines(all);
    RenderLinesPrefix(all, |p|);
    assert all[..|p|] == p;
    assert lines[..|lines| - 1] == RenderLines(p);
    assert lines[|lines| - 1] == RenderLine(q);
    NoIndexOrdered(p);
    PropOfLines(p);
    LinePairOf(q);
    assert PropOf(lines) == SetKey(p, q.key, q.value);
    IndexKeyGoesFirst(p, q.key, q.value);
  }

  /** A line whose key is `__proto__` adds nothing to the object. */
  lemma ProtoLineDropped(lines: seq<string>, l: string)
    requires LinePair(l).Some? && LinePair(l).value.key == ProtoKey
    ensures PropOf(lines + [l]) == PropOf(lines)
  {
    var all := lines + [l];
    assert all[..|all| - 1] == lines && all[|all| - 1] == l;
  }

  lemma OrderedPrefix(p: Prop, n: nat)
    requires n <= |p| && DistinctKeys(p) && KeyOrdered(p)
    ensures DistinctKeys(p[..n]) && KeyOrdered(p[..n])
  {
  }

  lemma FreshKey(p: Prop)
    requires |p| > 0 && DistinctKeys(p)
    ensures p[|p| - 1].key !in Keys(p[..|p| - 1])
  {
  }

  /** A usable line whose key is new, is not `__proto__` and comes after
      every key read so far in object order appends its pair. */
  lemma PropOfStep(lines: seq<string>, q: Pair)
    requires |lines| > 0 && LinePair(lines[|lines| - 1]) == Some(q)
    requires q.key != ProtoKey && q.key !in Keys(PropOf(lines[..|lines| - 1]))
    requires KeyOrdered(PropOf(lines[..|lines| - 1]) + [q])
    ensures PropOf(lines) == PropOf(lines[..|lines| - 1]) + [q]
  {
    SetKeyFresh(PropOf(lines[..|lines| - 1]), q.key, q.value);
  }

  lemma RenderLinesPrefix(p: Prop, n: nat)
    requires n <= |p|
    ensures RenderLines(p)[..n] == RenderLines(p[..n])
  {
  }

  lemma RenderAllPrefix(ps: seq<Prop>, n: nat)
    requires n <= |ps|
    ensures RenderAll(ps)[..n] == RenderAll(ps[..n])
  {
  }

  lemma RenderedTrimmed(p: Prop)
    requires CleanProp(p)
    ensures RenderProp(p) != [] && IsTrimmed(RenderProp(p))
  {
    var lines := RenderLines(p);
    JoinEnds(lines, "\n");
  }

  /** A join starts with its first part and ends with its last. */
  lemma {:induction false} JoinEnds(parts: seq<string>, sep: string)
    requires |parts| >= 1
    ensures |Join(parts, sep)| >= |parts[0]| && |Join(parts, sep)| >= |parts[|parts| - 1]|
    ensures Join(parts, sep)[..|parts[0]|] == parts[0]
    ensures Join(parts, sep)[|Join(parts, sep)| - |parts[|parts| - 1]|..] == parts[|parts| - 1]
  {
    if |parts| >= 2 {
      JoinEnds(parts[1..], sep);
    }
  }

  /** A rendered prop reads back as the prop. */
  lemma PieceOfProp(p: Prop)
    requires CleanProp(p)
    ensures PieceProp(RenderProp(p)) == Some(p)
  {
    RenderedTrimmed(p);
    TrimOfTrimmed(RenderProp(p));
    CleanLines(p);
    LinesOfJoin(RenderLines(p));
    PropOfLines(p);
  }

  lemma {:induction false} KeepRendered(ps: seq<Prop>)
    requires forall i :: 0 <= i < |ps| ==> CleanProp(ps[i])
    ensures KeepProps(RenderAll(ps)) == ps
  {
    if ps != [] {
      var n := |ps| - 1;
      var rs := RenderAll(ps);
      var init := RenderAll(ps[..n]);
      RenderAllPrefix(ps, n);
      PieceOfProp(ps[n]);
      assert KeepProps(rs) == KeepProps(init) + [ps[n]];
      KeepRendered(ps[..n]);
      FrontLast(ps);
    }
  }

  /** Writing props in the `- key: value` format and parsing them again gives
      the same props, for pairs the format can carry. */
  lemma PropsRoundTrip(ps: seq<Prop>)
    requires forall i :: 0 <= i < |ps| ==> CleanProp(ps[i])
    ensures ParseProps(RenderProps(ps)) == ps
  {
    var body := Join(RenderAll(ps), "\n- ");
    var d := RenderProps(ps);
    assert Marker(d) && d[2..] == body;
    assert KeepProps([[]]) == [] by {
      assert Trim([]) == [];
    }
    if ps == [] {
      assert body == [];
      KeepPropsAppend([[]], [[]]);
    } else {
      ItemsOfRendered(ps);
      KeepPropsAppend([[]], RenderAll(ps));
      KeepRendered(ps);
    }
  }

  /** A non-blank piece with no usable line still yields an empty prop. */
  lemma UnusablePieceKept(s: string)
    requires s != [] && IsTrimmed(s) && '\n' !in s && ':' !in s && !Marker(s)
    ensures ParseProps(s) == [[]]
  {
    ItemsAfterPlain(s, []);
    assert s + [] == s;
    TrimOfTrimmed(s);
    LinesNoBreak(s);
    assert Find(s, ":") == None by {
      forall j: nat | j + 1 <= |s|
        ensures !OccursAt(s, ":", j)
      {
        assert s[j..j + 1] == [s[j]];
      }
    }
    assert PropOf([s]) == PropOf([]);
    assert PropPieces(s) == [s];
    assert KeepProps([s]) == KeepProps([]) + [[]];
  }

  // ------------------------------------------------- the tag switch

  /** The name a `name` tag gives: its name field, or else its description. */
  function TagName(t: Tag): string {
    if t.name != [] then t.name else t.description
  }

  /** The titles the tag switch distinguishes. */
  datatype TagKind = NameTag | DescriptionTag | TagsTag | CategoryTag | PropsTag | OtherTag

  function KindOf(title: string): TagKind {
    match title
    case "name" => NameTag
    case "description" => DescriptionTag
    case "tags" => TagsTag
    case "category" => CategoryTag
    case "props" => PropsTag
    case _ => OtherTag
  }

  /** One turn of the tag switch. Titles outside the five cases, `id`
      among them, change nothing. */
  function ApplyTag(e: Entry, t: Tag): (r: Entry)
    ensures r.version == e.version && r.importPath == e.importPath && r.filePath == e.filePath
  {
    match KindOf(t.title)
    case NameTag => e.(name := TagName(t), id := Slug(TagName(t)))
    case DescriptionTag => e.(description := t.description)
    case TagsTag => e.(tags := ParseTags(t.description))
    case CategoryTag => e.(category := NormalizeCategory(t.description))
    case PropsTag => if t.description == [] then e else e.(props := ParseProps(t.description))
    case OtherTag => e
  }

  function ApplyTags(e: Entry, tags: seq<Tag>): Entry {
    if tags == [] then e else ApplyTag(ApplyTags(e, tags[..|tags| - 1]), tags[|tags| - 1])
  }

  /** The entry before any tag is seen. */
  function Blank(doc: Doc): Entry {
    Entry("", "", Initial, doc.description, [], "", [], "", "")
  }

  /** The entry a parsed comment yields, before its paths and version. */
  function Draft(doc: Doc): Entry {
    ApplyTags(Blank(doc), doc.tags)
  }

  /** The last tag of the given kind, skipping those with an empty
      description when `needText` is set. */
  function LastTag(tags: seq<Tag>, kind: TagKind, needText: bool): (r: Option<Tag>)
    ensures r.Some? ==> r.value in tags && KindOf(r.value.title) == kind
    ensures r.Some? && needText ==> r.value.description != []
  {
    if tags == [] then None
    else
      var t := tags[|tags| - 1];
      if KindOf(t.title) == kind && (!needText || t.description != []) then Some(t)
      else LastTag(tags[..|tags| - 1], kind, needText)
  }

  /** The effect of one tag, field by field. */
  lemma ApplyTagEffect(e: Entry, t: Tag)
    ensures ApplyTag(e, t).name == if KindOf(t.title) == NameTag then TagName(t) else e.name
    ensures ApplyTag(e, t).id == if KindOf(t.title) == NameTag then Slug(TagName(t)) else e.id
    ensures ApplyTag(e, t).description == if KindOf(t.title) == DescriptionTag then t.description else e.description
    ensures ApplyTag(e, t).tags == if KindOf(t.title) == TagsTag then ParseTags(t.description) else e.tags
    ensures ApplyTag(e, t).category == if KindOf(t.title) == CategoryTag then NormalizeCategory(t.description) else e.category
    ensures ApplyTag(e, t).props ==
      if KindOf(t.title) == PropsTag && t.description != [] then ParseProps(t.description) else e.props
    ensures ApplyTag(e, t).version == e.version
    ensures ApplyTag(e, t).importPath == e.importPath && ApplyTag(e, t).filePath == e.filePath
  {
    ApplyTagCases(e, t);
    match KindOf(t.title)
    case NameTag =>
    case DescriptionTag =>
    case TagsTag =>
    case CategoryTag =>
    case PropsTag =>
    case OtherTag =>
  }

  // For repeated tags the last one wins, field by field: each field of the
  // entry is decided by the last tag of its own title (for props, the last
  // one with a non-empty body), and keeps its starting value otherwise.

  lemma {:induction false} LastNameWins(e: Entry, tags: seq<Tag>)
    ensures ApplyTags(e, tags).name ==
      match LastTag(tags, NameTag, false) case None => e.name case Some(t) => TagName(t)
    ensures ApplyTags(e, tags).id ==
      match LastTag(tags, NameTag, false) case None => e.id case Some(t) => Slug(TagName(t))
  {
    if tags != [] {
      var init := tags[..|tags| - 1];
      LastNameWins(e, init);
      ApplyTagEffect(ApplyTags(e, init), tags[|tags| - 1]);
    }
  }

  lemma {:induction false} LastDescriptionWins(e: Entry, tags: seq<Tag>)
    ensures ApplyTags(e, tags).description ==
      match LastTag(tags, DescriptionTag, false) case None => e.description case Some(t) => t.description
  {
    if tags != [] {
      var init := tags[..|tags| - 1];
      LastDescriptionWins(e, init);
      ApplyTagEffect(ApplyTags(e, init), tags[|tags| - 1]);
    }
  }

  lemma {:induction false} LastTagsWins(e: Entry, tags: seq<Tag>)
    ensures ApplyTags(e, tags).tags ==
      match LastTag(tags, TagsTag, false) case None => e.tags case Some(t) => ParseTags(t.description)
  {
    if tags != [] {
      var init := tags[..|tags| - 1];
      LastTagsWins(e, init);
      ApplyTagEffect(ApplyTags(e, init), tags[|tags| - 1]);
    }
  }

  lemma {:induction false} LastCategoryWins(e: Entry, tags: seq<Tag>)
    ensures ApplyTags(e, tags).category ==
      match LastTag(tags, CategoryTag, false) case None => e.category case Some(t) => NormalizeCategory(t.description)
  {
    if tags != [] {
      var init := tags[..|tags| - 1];
      LastCategoryWins(e, init);
      ApplyTagEffect(ApplyTags(e, init), tags[|tags| - 1]);
    }
  }

  /** A `props` tag with an empty body leaves the props of an earlier one. */
  lemma {:induction false} LastPropsWins(e: Entry, tags: seq<Tag>)
    ensures ApplyTags(e, tags).props ==
      match LastTag(tags, PropsTag, true) case None => e.props case Some(t) => ParseProps(t.description)
  {
    if tags != [] {
      var init := tags[..|tags| - 1];
      LastPropsWins(e, init);
      ApplyTagEffect(ApplyTags(e, init), tags[|tags| - 1]);
    }
  }

  /** No tag touches the version or the paths. */
  lemma {:induction false} TagsKeepPlacement(e: Entry, tags: seq<Tag>)
    ensures ApplyTags(e, tags).version == e.version
    ensures ApplyTags(e, tags).importPath == e.importPath
    ensures ApplyTags(e, tags).filePath == e.filePath
  {
    if tags != [] {
      var init := tags[..|tags| - 1];
      TagsKeepPlacement(e, init);
      ApplyTagEffect(ApplyTags(e, init), tags[|tags| - 1]);
    }
  }

  /** What a parsed comment yields: the name and id come from the last
      `name` tag, the id is always derived from the name, the description
      defaults to the comment's leading text, and the version is 1.0.0. */
  lemma DraftFields(doc: Doc)
    ensures Draft(doc).id == Slug(Draft(doc).name)
    ensures Draft(doc).name ==
      match LastTag(doc.tags, NameTag, false) case None => "" case Some(t) => TagName(t)
    ensures Draft(doc).description ==
      match LastTag(doc.tags, DescriptionTag, false) case None => doc.description case Some(t) => t.description
    ensures Draft(doc).version == Version(1, 0, 0)
    ensures Draft(doc).importPath == "" && Draft(doc).filePath == ""
  {
    LastNameWins(Blank(doc), doc.tags);
    LastDescriptionWins(Blank(doc), doc.tags);
    TagsKeepPlacement(Blank(doc), doc.tags);
    assert Slug("") == "";
  }

  /** The tag loop of `parseJsDoc`. */
  method BuildEntry(doc: Doc) returns (entry: Entry)
    ensures entry == Draft(doc)
  {
    entry := Entry("", "", Initial, doc.description, [], "", [], "", "");
    for i := 0 to |doc.tags|
      invariant entry == ApplyTags(Blank(doc), doc.tags[..i])
    {
      assert doc.tags[..i + 1][..i] == doc.tags[..i];
      entry := TagSwitch(entry, doc.tags[i]);
    }
    assert doc.tags[..|doc.tags|] == doc.tags;
  }

  /** One turn of the tag loop: the `switch` on the tag's title. */
  method TagSwitch(entry: Entry, tag: Tag) returns (next: Entry)
    ensures next == ApplyTag(entry, tag)
  {
    var desc := tag.description;
    ApplyTagCases(entry, tag);
    if tag.title == "name" {
      assert KindOf(tag.title) == NameTag;
      var name := if tag.name != [] then tag.name else desc;
      next := entry.(name := name, id := Slug(name));
    } else if tag.title == "description" {
      assert KindOf(tag.title) == DescriptionTag;
      next := entry.(description := desc);
    } else if tag.title == "tags" {
      assert KindOf(tag.title) == TagsTag;
      next := entry.(tags := ParseTags(desc));
    } else if tag.title == "category" {
      assert KindOf(tag.title) == CategoryTag;
      next := entry.(category := NormalizeCategory(desc));
    } else if tag.title == "props" {
      assert KindOf(tag.title) == PropsTag;
      if desc != [] {
        next := entry.(props := ParseProps(desc));
      } else {
        next := entry;
      }
    } else {
      assert KindOf(tag.title) == OtherTag;
      next := entry;
    }
  }

  /** The effect of one tag, kind by kind. */
  lemma ApplyTagCases(e: Entry, t: Tag)
    ensures KindOf(t.title) == NameTag ==> ApplyTag(e, t) == e.(name := TagName(t), id := Slug(TagName(t)))
    ensures KindOf(t.title) == DescriptionTag ==> ApplyTag(e, t) == e.(description := t.description)
    ensures KindOf(t.title) == TagsTag ==> ApplyTag(e, t) == e.(tags := ParseTags(t.description))
    ensures KindOf(t.title) == CategoryTag ==> ApplyTag(e, t) == e.(category := NormalizeCategory(t.description))
    ensures KindOf(t.title) == PropsTag ==>
      ApplyTag(e, t) == (if t.description == [] then e else e.(props := ParseProps(t.description)))
    ensures KindOf(t.title) == OtherTag ==> ApplyTag(e, t) == e
  {
  }

  // --------------------------------------------------------- fingerprint

  /** The four fields the fingerprint is computed over, in their order. */
  datatype Snapshot = Snapshot(description: string, props: seq<Prop>, tags: seq<string>, category: string)

  function SnapshotOf(e: Entry): Snapshot {
    Snapshot(e.description, e.props, e.tags, e.category)
  }

  /** The fingerprint ignores the name, id, version and both paths: entries
      that agree on description, props, tags and category hash alike. */
  lemma FingerprintIgnoresIdentity(digest: Snapshot -> string, e: Entry, name: string, id: string,
                                   v: Version, importPath: string, filePath: string)
    ensures digest(SnapshotOf(e.(name := name, id := id, version := v, importPath := importPath, filePath := filePath)))
         == digest(SnapshotOf(e))
  {
  }

  // --------------------------------------------------------- import path

  /** The position of the last `c` in `s`. */
  function LastIndex(s: string, c: char): (r: Option<nat>)
    ensures r.Some? ==> r.value < |s|
  {
    if s == [] then None
    else if s[|s| - 1] == c then Some(|s| - 1)
    else LastIndex(s[..|s| - 1], c)
  }

  /** `LastIndex` finds the last `c`, and finds nothing exactly when there
      is none. */
  lemma {:induction false} LastIndexIsLast(s: string, c: char)
    ensures LastIndex(s, c).Some? ==> s[LastIndex(s, c).value] == c
    ensures LastIndex(s, c).Some? ==> forall k :: LastIndex(s, c).value < k < |s| ==> s[k] != c
    ensures LastIndex(s, c).None? <==> c !in s
  {
    if s != [] && s[|s| - 1] != c {
      var init := s[..|s| - 1];
      LastIndexIsLast(init, c);
      assert s == init + [s[|s| - 1]];
      if c in s {
        var k :| 0 <= k < |s| && s[k] == c;
        assert init[k] == c;
      }
    }
  }

  /** `path.join(dir, name)` of `path.parse(filePath)`: the path without its
      extension, where the extension starts at the last dot of the file name
      unless that dot opens the name. */
  function WithoutExtension(filePath: string): string {
    var base := NameStart(filePath);
    var dot := LastIndex(filePath[base..], '.');
    if dot.Some? && dot.value > 0 then filePath[..base + dot.value] else filePath
  }

  /** Where the file name starts: after the last slash, if any. */
  function NameStart(filePath: string): (r: nat)
    ensures r <= |filePath|
  {
    match LastIndex(filePath, '/') case None => 0 case Some(i) => i + 1
  }

  /** The import path of an entry declared in the file at `filePath`. */
  function ImportPath(filePath: string): (r: string)
    ensures |r| >= 2 && r[..2] == "./"
  {
    var stem := WithoutExtension(filePath);
    "./" + if StartsWith(stem, "src/") then stem[4..] else stem
  }

  /** Removing the extension of `<path>.<ext>` gives `<path>` back, for a
      path that does not end in a slash and an extension with no dot or slash. */
  lemma WithoutExtensionOf(path: string, ext: string)
    requires path != [] && path[|path| - 1] != '/'
    requires '.' !in ext && '/' !in ext
    ensures WithoutExtension(path + ['.'] + ext) == path
  {
    var tail := ['.'] + ext;
    var fp := path + tail;
    assert fp == path + ['.'] + ext;
    NameStartOf(path, tail);
    var base := NameStart(path);
    var name := path[base..];
    assert fp[base..] == name + tail;
    DotOpensTail(ext);
    LastIndexInTail(name, tail, '.', 0);
    assert fp[..base + |name|] == path;
  }

  /** The file name of `path + tail` starts where that of `path` does,
      before the end of `path`, when `tail` has no slash and `path` does not
      end in one. */
  lemma NameStartOf(path: string, tail: string)
    requires path != [] && path[|path| - 1] != '/' && '/' !in tail
    ensures NameStart(path + tail) == NameStart(path) < |path|
  {
    LastIndexIsLast(tail, '/');
    LastIndexOfTail(path, tail, '/');
  }

  /** When `b` has a `c`, the last `c` of `a + b` is `b`'s, shifted. */
  lemma LastIndexInTail(a: string, b: string, c: char, k: nat)
    requires LastIndex(b, c) == Some(k)
    ensures LastIndex(a + b, c) == Some(|a| + k)
  {
    LastIndexOfTail(a, b, c);
  }

  /** In a dot followed by dot-free text, that dot is the last one. */
  lemma DotOpensTail(ext: string)
    requires '.' !in ext
    ensures LastIndex(['.'] + ext, '.') == Some(0)
  {
    LastIndexIsLast(ext, '.');
    LastIndexOfTail(['.'], ext, '.');
    assert LastIndex(['.'], '.') == Some(0);
  }

  /** A source file `src/<stem>.<ext>` is imported as `./<stem>`. */
  lemma ImportPathOfSource(stem: string, ext: string)
    requires stem != [] && stem[|stem| - 1] != '/'
    requires '.' !in ext && '/' !in ext
    ensures ImportPath("src/" + stem + "." + ext) == "./" + stem
  {
    var path := "src/" + stem;
    WithoutExtensionOf(path, ext);
    assert path + ['.'] + ext == "src/" + stem + "." + ext;
    assert StartsWith(path, "src/");
    assert path[4..] == stem;
  }

  /** The last `c` of `a + b` lies in `b` when `b` has one, else in `a`. */
  lemma {:induction false} LastIndexOfTail(a: string, b: string, c: char)
    ensures LastIndex(a + b, c) ==
      match LastIndex(b, c) case Some(k) => Some(|a| + k) case None => LastIndex(a, c)
    decreases |b|
  {
    if b == [] {
      assert a + b == a;
    } else {
      var s := a + b;
      assert s[..|s| - 1] == a + b[..|b| - 1];
      LastIndexOfTail(a, b[..|b| - 1], c);
    }
  }
}
