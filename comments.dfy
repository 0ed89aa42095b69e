// The documentation-comment scan of the manifest generator: the global,
// non-greedy match of the opener `/**` up to the closer `*/` over a file's text.
module Comments {
  import opened Text

  ghost predicate Absent(s: string, pat: string) {
    forall j: nat :: !OccursAt(s, pat, j)
  }

  // The inner texts of the successive matches, in the order they occur:
  // each match starts at the leftmost remaining opener and ends at the first
  // closer after it, and the scan resumes after that closer.
  function Blocks(s: string): (r: seq<string>)
    ensures forall i :: 0 <= i < |r| ==> Absent(r[i], "*/")
    decreases |s|
  {
    match Find(s, "/**")
    case None => []
    case Some(i) =>
      var tail := s[i + 3..];
      match Find(tail, "*/")
      case None => []
      case Some(j) =>
        PrefixBeforeFirst(tail, "*/", j);
        [tail[..j]] + Blocks(tail[j + 2..])
  }

  /** The text before the first occurrence of a pattern does not contain it. */
  lemma PrefixBeforeFirst(s: string, pat: string, j: nat)
    requires j <= |s| && |pat| > 0
    requires forall k: nat :: k < j ==> !OccursAt(s, pat, k)
    ensures Absent(s[..j], pat)
  {
    forall k: nat | OccursAt(s[..j], pat, k)
      ensures false
    {
      assert s[..j][k..k + |pat|] == s[k..k + |pat|];
      assert OccursAt(s, pat, k);
    }
  }

  /** If the first occurrence is known, `Find` reports it. */
  lemma FindIs(s: string, pat: string, p: nat)
    requires OccursAt(s, pat, p)
    requires forall k: nat :: k < p ==> !OccursAt(s, pat, k)
    ensures Find(s, pat) == Some(p)
  {
  }

  // A text laid out as pre, opener, body, closer, rest, where `pre` holds no
  // opener and `body` no closer, yields `body` as its first block and then
  // the blocks of `rest`: blocks come out one per comment, in file order.
  lemma {:induction false} BlocksOfLayout(pre: string, body: string, rest: string)
    requires Absent(pre, "/**")
    requires Absent(body, "*/")
    ensures Blocks(pre + "/**" + body + "*/" + rest) == [body] + Blocks(rest)
  {
    var s := pre + "/**" + body + "*/" + rest;
    var tail := body + "*/" + rest;
    assert s == pre + "/**" + tail;
    FirstOpener(pre, tail);
    assert s[|pre| + 3..] == tail;
    FirstCloser(body, rest);
    assert tail[..|body|] == body;
    assert tail[|body| + 2..] == rest;
  }

  lemma FirstOpener(pre: string, tail: string)
    requires Absent(pre, "/**")
    ensures Find(pre + "/**" + tail, "/**") == Some(|pre|)
  {
    var s := pre + "/**" + tail;
    var p := |pre|;
    assert s[p..p + 3] == "/**";
    forall k: nat | k < p
      ensures !OccursAt(s, "/**", k)
    {
      if k + 3 <= p {
        assert s[k..k + 3] == pre[k..k + 3];
        assert !OccursAt(pre, "/**", k);
      } else if k + 2 == p {
        assert s[k..k + 3][2] == s[p] == '/';
      } else {
        assert s[k..k + 3][1] == s[p] == '/';
      }
    }
    FindIs(s, "/**", p);
  }

  lemma FirstCloser(body: string, rest: string)
    requires Absent(body, "*/")
    ensures Find(body + "*/" + rest, "*/") == Some(|body|)
  {
    var tail := body + "*/" + rest;
    var b := |body|;
    assert tail[b..b + 2] == "*/";
    forall k: nat | k < b
      ensures !OccursAt(tail, "*/", k)
    {
      if k + 2 <= b {
        assert tail[k..k + 2] == body[k..k + 2];
        assert !OccursAt(body, "*/", k);
      } else {
        assert tail[k..k + 2][1] == tail[b] == '*';
      }
    }
    FindIs(tail, "*/", b);
  }

  /** A text without any comment opener yields no blocks. */
  lemma NoOpenerNoBlocks(s: string)
    requires Absent(s, "/**")
    ensures Blocks(s) == []
  {
  }
}
