/** The source-tree walk of the manifest generator (`getSourceFiles`):
    a depth-first listing of the candidate source files under a directory. */
module FileWalker {
  import opened Text

  /** One directory entry, as the directory listing returns it. */
  datatype Item =
    | File(name: string, content: string)
    | Directory(name: string, items: seq<Item>)

  /** A candidate source file: its path (the directory joined with the
      file name) and its text. */
  datatype SourceFile = SourceFile(path: string, content: string)

  /** The extension filter of the walk. */
  predicate IsSourceName(name: string) {
    && (EndsWith(name, ".tsx") || EndsWith(name, ".ts"))
    && !EndsWith(name, ".test.tsx")
    && !EndsWith(name, ".stories.tsx")
  }

  /** `path.join` on an already normalised directory and a plain name. */
  function JoinPath(dir: string, name: string): string {
    dir + "/" + name
  }

  /** The files the walk returns, in the order it returns them. */
  function SourceFiles(dir: string, items: seq<Item>): seq<SourceFile>
    decreases items
  {
    if items == [] then []
    else SourceFiles(dir, items[..|items| - 1]) + ItemFiles(dir, items[|items| - 1])
  }

  function ItemFiles(dir: string, item: Item): seq<SourceFile>
    decreases item
  {
    match item
    case File(name, content) =>
      if IsSourceName(name) then [SourceFile(JoinPath(dir, name), content)] else []
    case Directory(name, sub) => SourceFiles(JoinPath(dir, name), sub)
  }

  /** A file of the tree together with its own name, before any filtering. */
  datatype Found = Found(name: string, file: SourceFile)

  /** Every file of the tree, depth first in listing order, unfiltered. */
  function AllFiles(dir: string, items: seq<Item>): seq<Found>
    decreases items
  {
    if items == [] then []
    else AllFiles(dir, items[..|items| - 1]) + ItemAllFiles(dir, items[|items| - 1])
  }

  function ItemAllFiles(dir: string, item: Item): seq<Found>
    decreases item
  {
    match item
    case File(name, content) => [Found(name, SourceFile(JoinPath(dir, name), content))]
    case Directory(name, sub) => AllFiles(JoinPath(dir, name), sub)
  }

  /** The files of a listing whose names pass the filter, in order. */
  function KeepSources(found: seq<Found>): seq<SourceFile> {
    if found == [] then []
    else
      var last := found[|found| - 1];
      KeepSources(found[..|found| - 1]) + if IsSourceName(last.name) then [last.file] else []
  }

  lemma {:induction false} KeepSourcesAppend(a: seq<Found>, b: seq<Found>)
    ensures KeepSources(a + b) == KeepSources(a) + KeepSources(b)
    decreases |b|
  {
    if b == [] {
      assert a + b == a;
    } else {
      var bs := b[..|b| - 1];
      assert (a + b)[..|a + b| - 1] == a + bs;
      assert (a + b)[|a + b| - 1] == b[|b| - 1];
      KeepSourcesAppend(a, bs);
    }
  }

  /** The walk keeps a file exactly when its name passes the filter, and
      keeps the depth-first listing order of the whole tree. */
  lemma {:induction false} WalkIsFilteredListing(dir: string, items: seq<Item>)
    ensures SourceFiles(dir, items) == KeepSources(AllFiles(dir, items))
    decreases items
  {
    if items != [] {
      var init, last := items[..|items| - 1], items[|items| - 1];
      WalkIsFilteredListing(dir, init);
      ItemWalkIsFilteredListing(dir, last);
      KeepSourcesAppend(AllFiles(dir, init), ItemAllFiles(dir, last));
    }
  }

  lemma {:induction false} ItemWalkIsFilteredListing(dir: string, item: Item)
    ensures ItemFiles(dir, item) == KeepSources(ItemAllFiles(dir, item))
    decreases item
  {
    match item
    case File(name, content) =>
      var one := [Found(name, SourceFile(JoinPath(dir, name), content))];
      assert one[..0] == [];
    case Directory(name, sub) =>
      WalkIsFilteredListing(JoinPath(dir, name), sub);
  }

  /** Every `.ts` file is kept, test files written as `.ts` and declaration
      files included: the excluded suffixes both end in `x`. */
  lemma TsKept(stem: string)
    ensures IsSourceName(stem + ".ts")
  {
    var name := stem + ".ts";
    EndsWithAppend(stem, ".ts", ".ts");
    assert name[|name| - 1] == 's';
  }

  /** The `.test.tsx` and `.stories.tsx` files are dropped. */
  lemma TestsAndStoriesDropped(stem: string)
    ensures !IsSourceName(stem + ".test.tsx")
    ensures !IsSourceName(stem + ".stories.tsx")
  {
    EndsWithAppend(stem, ".test.tsx", ".test.tsx");
    EndsWithAppend(stem, ".stories.tsx", ".stories.tsx");
  }

  /** Any other `.tsx` file is kept. */
  lemma TsxKept(stem: string)
    requires !EndsWith(stem, ".test") && !EndsWith(stem, ".stories")
    ensures IsSourceName(stem + ".tsx")
  {
    EndsWithAppend(stem, ".tsx", ".tsx");
    EndsWithLonger(stem, ".tsx", ".test.tsx", ".test");
    EndsWithLonger(stem, ".tsx", ".stories.tsx", ".stories");
  }

  /** A name whose last character is neither `s` nor `x` is dropped. */
  lemma OtherExtensionsDropped(name: string)
    requires name == [] || (name[|name| - 1] != 's' && name[|name| - 1] != 'x')
    ensures !IsSourceName(name)
  {
  }

  /** `getSourceFiles`: appends the files of each entry in turn, recursing
      into directories. */
  method GetSourceFiles(dir: string, items: seq<Item>) returns (files: seq<SourceFile>)
    ensures files == SourceFiles(dir, items)
    decreases items
  {
    files := [];
    for i := 0 to |items|
      invariant files == SourceFiles(dir, items[..i])
    {
      assert items[..i + 1][..i] == items[..i];
      match items[i]
      case Directory(name, sub) =>
        var nested := GetSourceFiles(JoinPath(dir, name), sub);
        files := files + nested;
      case File(name, content) =>
        if EndsWith(name, ".tsx") || EndsWith(name, ".ts") {
          if !EndsWith(name, ".test.tsx") && !EndsWith(name, ".stories.tsx") {
            files := files + [SourceFile(JoinPath(dir, name), content)];
          }
        }
    }
    assert items[..|items|] == items;
  }
}
