/** The avatar's fallback initials and its choice between the picture and
    the initials. */
module AvatarInitials {
  import opened Text

  /** Indexing a string's first character in a template literal: the
      character, or the text `undefined` for the empty string. */
  function FirstOrUndefined(p: string): (r: string)
    ensures p != [] ==> r == [p[0]]
  {
    if p == [] then "undefined" else [p[0]]
  }

  /** `getInitials`: with more than one space-separated piece, the first
      characters of the first and last pieces; otherwise the first two
      characters; upper-cased either way. */
  function Initials(name: string): (r: string)
    ensures forall i :: 0 <= i < |r| ==> !IsLower(r[i])
  {
    var names := Split(name, ' ');
    if |names| > 1 then Upper(FirstOrUndefined(names[0]) + FirstOrUndefined(names[|names| - 1]))
    else Upper(name[..if |name| < 2 then |name| else 2])
  }

  /** A name without spaces gives its first two characters, or fewer when
      it is shorter, upper-cased. */
  lemma SinglePiece(name: string)
    requires ' ' !in name
    ensures Initials(name) == Upper(name[..if |name| < 2 then |name| else 2])
    ensures |Initials(name)| <= 2
  {
    SplitNoSeparator(name, ' ');
  }

  /** Splitting `x + " " + b` with no space in `b` ends with the piece `b`
      and has at least two pieces. */
  lemma {:induction false} SplitEndsWithPiece(x: string, b: string)
    requires ' ' !in b
    ensures |Split(x + " " + b, ' ')| >= 2
    ensures Split(x + " " + b, ' ')[|Split(x + " " + b, ' ')| - 1] == b
  {
    var s := x + " " + b;
    if x == [] {
      assert s == [' '] + b && s[1..] == b;
      SplitNoSeparator(b, ' ');
    } else {
      assert s[1..] == x[1..] + " " + b;
      SplitEndsWithPiece(x[1..], b);
    }
  }

  /** With non-empty first and last pieces the initials are their first
      characters, upper-cased, whatever lies between them. */
  lemma TwoInitials(first: string, middle: string, last: string)
    requires first != [] && last != [] && ' ' !in first && ' ' !in last
    ensures Initials(first + middle + " " + last) == [UpperChar(first[0]), UpperChar(last[0])]
    ensures Initials(first + middle + " " + last) == Initials(first + " " + last)
  {
    FirstAndLastPieces(first, middle, last);
    FirstAndLastPieces(first, [], last);
    assert first + [] + " " + last == first + " " + last;
  }

  lemma FirstAndLastPieces(first: string, middle: string, last: string)
    requires first != [] && last != [] && ' ' !in first && ' ' !in last
    ensures Initials(first + middle + " " + last) == [UpperChar(first[0]), UpperChar(last[0])]
  {
    var s := first + middle + " " + last;
    var names := Split(s, ' ');
    SplitEndsWithPiece(first + middle, last);
    assert names[|names| - 1] == last;
    PieceStartsWithPrefix(first, middle + " " + last);
    assert s == first + (middle + " " + last);
    assert names[0][0] == first[0];
  }

  /** The first piece of `a + rest`, for a non-empty `a` without spaces,
      starts with `a`'s first character. */
  lemma PieceStartsWithPrefix(a: string, rest: string)
    requires a != [] && ' ' !in a
    ensures Split(a + rest, ' ')[0] != [] && Split(a + rest, ' ')[0][0] == a[0]
  {
    assert (a + rest)[0] == a[0];
  }

  /** A leading space makes the first piece empty and the initials start
      with JavaScript's `UNDEFINED`. */
  lemma LeadingSpace(b: string)
    requires b != [] && ' ' !in b
    ensures Initials(" " + b) == Upper("undefined") + [UpperChar(b[0])]
  {
    SplitEndsWithPiece([], b);
    assert [] + " " + b == " " + b;
    var names := Split(" " + b, ' ');
    assert names[0] == [];
  }

  /** What the avatar draws. */
  datatype Content = Picture(src: string, alt: string) | Letters(text: string)

  /** The picture when `src` is a non-empty string, the initials otherwise. */
  function AvatarContent(src: Option<string>, name: string): (c: Content)
    ensures c.Picture? <==> src.Some? && src.value != []
    ensures c.Picture? ==> c.src == src.value && c.alt == name
    ensures c.Letters? ==> c.text == Initials(name)
  {
    if src.Some? && src.value != [] then Picture(src.value, name) else Letters(Initials(name))
  }
}
