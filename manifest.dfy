/** The manifest generator's main loop (`parseJsDoc`, lines 77-168, and
    `buildManifest`, lines 171-227): entries are versioned against the
    history, sorted into the five category buckets, and the renderable ones
    listed in a registry de-duplicated by id. */
module ManifestGenerator {
  import opened Text
  import opened JsObjects
  import opened Versioning
  import opened FileWalker
  import opened Comments
  import opened Annotations

  // ------------------------------------------------------------ buckets

  /** The five buckets of the manifest. */
  datatype Bucket = Components | Layouts | Utils | Hooks | Data

  /** The own properties of the category table: the bucket a listed
      category belongs to. */
  function CategoryMap(key: string): Option<Bucket> {
    match key
    case "component" => Some(Components)
    case "components" => Some(Components)
    case "ui" => Some(Components)
    case "input" => Some(Components)
    case "form" => Some(Components)
    case "feedback" => Some(Components)
    case "navigation" => Some(Components)
    case "data-display" => Some(Components)
    case "layout" => Some(Layouts)
    case "layouts" => Some(Layouts)
    case "iot" => Some(Components)
    case "ai" => Some(Components)
    case "blocks" => Some(Components)
    case "util" => Some(Utils)
    case "utils" => Some(Utils)
    case "hook" => Some(Hooks)
    case "hooks" => Some(Hooks)
    case "data" => Some(Data)
    case _ => None
  }

  /** The category an entry is filed under: a missing one counts as
      `component`. */
  function RawCategory(category: string): string {
    if category == [] then "component" else category
  }

  /** The bucket an entry goes to: the table's bucket for its category, and
      `components` for a category the table does not list. */
  function BucketOf(category: string): (r: Bucket)
    ensures category == [] ==> r == Components
  {
    match CategoryMap(RawCategory(category))
    case Some(b) => b
    case None => Components
  }

  /** Where each category goes: the singular and plural of `layout`,
      `util` and `hook` to their buckets, `data` to its own, and every other
      category, the missing one included, to `components`. */
  lemma CategoryBuckets(category: string)
    ensures BucketOf(category) == Layouts <==> category in {"layout", "layouts"}
    ensures BucketOf(category) == Utils <==> category in {"util", "utils"}
    ensures BucketOf(category) == Hooks <==> category in {"hook", "hooks"}
    ensures BucketOf(category) == Data <==> category == "data"
    ensures category == [] ==> BucketOf(category) == Components
  {
  }

  /** Only the `components` and `layouts` buckets are listed in the registry:
      of the five names the source tests for, `iot`, `ai` and `blocks` are
      never bucket names. */
  predicate Renderable(b: Bucket) {
    b == Components || b == Layouts
  }

  /** The manifest: the entries of each bucket, in scan order. */
  datatype Manifest = Manifest(
    components: seq<Entry>, layouts: seq<Entry>, utils: seq<Entry>, hooks: seq<Entry>, data: seq<Entry>)

  const EmptyManifest := Manifest([], [], [], [], [])

  function Get(m: Manifest, b: Bucket): seq<Entry> {
    match b
    case Components => m.components
    case Layouts => m.layouts
    case Utils => m.utils
    case Hooks => m.hooks
    case Data => m.data
  }

  function Size(m: Manifest): nat {
    |m.components| + |m.layouts| + |m.utils| + |m.hooks| + |m.data|
  }

  /** Pushing an entry onto one bucket: that bucket grows by the entry at its
      end and the other four are unchanged. */
  function Place(m: Manifest, b: Bucket, e: Entry): (r: Manifest)
    ensures Get(r, b) == Get(m, b) + [e]
    ensures forall c :: c != b ==> Get(r, c) == Get(m, c)
    ensures Size(r) == Size(m) + 1
  {
    match b
    case Components => m.(components := m.components + [e])
    case Layouts => m.(layouts := m.layouts + [e])
    case Utils => m.(utils := m.utils + [e])
    case Hooks => m.(hooks := m.hooks + [e])
    case Data => m.(data := m.data + [e])
  }

  /** The manifest the entries produce. */
  function Bucketed(entries: seq<Entry>): Manifest {
    if entries == [] then EmptyManifest
    else
      var e := entries[|entries| - 1];
      Place(Bucketed(entries[..|entries| - 1]), BucketOf(e.category), e)
  }

  /** The entries of one bucket, in order. */
  function InBucket(entries: seq<Entry>, b: Bucket): seq<Entry> {
    if entries == [] then []
    else
      var e := entries[|entries| - 1];
      InBucket(entries[..|entries| - 1], b) + if BucketOf(e.category) == b then [e] else []
  }

  /** Each bucket holds exactly the entries whose category maps to it, in
      order, and every entry lands in exactly one bucket, so the bucket sizes
      add up to the number of entries. */
  lemma {:induction false} BucketedContents(entries: seq<Entry>)
    ensures forall b :: Get(Bucketed(entries), b) == InBucket(entries, b)
    ensures Size(Bucketed(entries)) == |entries|
  {
    if entries != [] {
      BucketedContents(entries[..|entries| - 1]);
    }
  }

  // ------------------------------------------------ the as-written lookup

  /** What `CATEGORY_MAP[rawCat]` yields in JavaScript: an own property, a
      property inherited from `Object.prototype`, or nothing. */
  datatype Looked = Own(bucket: Bucket) | Inherited | Missing

  function JsLookup(key: string): Looked {
    match CategoryMap(key)
    case Some(b) => Own(b)
    case None => if key in InheritedKeys then Inherited else Missing
  }

  /** `CATEGORY_MAP[rawCat] || 'components'`: only a missing key falls back,
      an inherited one is truthy. */
  function WrittenKey(category: string): (r: Looked)
    ensures !r.Missing?
    ensures r.Own? ==> r.bucket == BucketOf(category)
    ensures r.Inherited? <==> CategoryMap(RawCategory(category)).None? && RawCategory(category) in InheritedKeys
  {
    match JsLookup(RawCategory(category))
    case Missing => Own(Components)
    case k => k
  }

  /** The bucket as written: `manifest[manifestKey]`, or `components` when
      the manifest has no such bucket. */
  function WrittenBucket(category: string): Bucket {
    match WrittenKey(category)
    case Own(b) => b
    case _ => Components
  }

  /** The registry test as written: the key must be one of the listed names. */
  predicate WrittenRenderable(category: string) {
    WrittenKey(category).Own? && Renderable(WrittenKey(category).bucket)
  }

  /** As written, a category named after an inherited property is filed in
      `components` but kept out of the registry. */
  lemma InheritedCategoryDiverges(key: string)
    requires key in InheritedKeys
    ensures WrittenBucket(key) == Components && !WrittenRenderable(key)
  {
  }

  /** Any other category the table does not list is filed in `components`
      and kept in the registry. */
  lemma UnlistedCategoryListed(key: string)
    requires key != [] && key !in InheritedKeys && CategoryMap(key).None?
    ensures WrittenBucket(key) == Components && WrittenRenderable(key)
  {
  }

  /** With the own-property lookup, the registry test depends only on the
      bucket: every entry filed under `components` or `layouts` is a registry
      candidate, those two categories included. */
  lemma BucketDecidesRenderable(category: string)
    ensures Renderable(BucketOf(category)) <==> BucketOf(category) == Components || BucketOf(category) == Layouts
    ensures CategoryMap(RawCategory(category)).None? ==> BucketOf(category) == Components && Renderable(BucketOf(category))
  {
  }

  /** The written lookup and the own-property one agree except on the
      inherited names. */
  lemma WrittenAgreesElsewhere(category: string)
    requires RawCategory(category) !in InheritedKeys
    ensures WrittenBucket(category) == BucketOf(category)
    ensures WrittenRenderable(category) <==> Renderable(BucketOf(category))
  {
  }

  /** The history lookup as written: a comment named `Constructor` gets the
      id `constructor`, which on a history with no record of it finds the
      inherited `Object.prototype.constructor` and throws. */
  lemma ConstructorNameThrows(fp: string)
    ensures Slug("Constructor") == "constructor"
    ensures ReconciledAsWritten(map[], Slug("Constructor"), fp) == Throws
  {
    ConstructorWord();
    SlugOfWord("Constructor");
  }

  lemma ConstructorWord()
    ensures IsWord("Constructor") && Lower("Constructor") == "constructor"
  {
    var w := "Constructor";
    assert IsUpper(w[0]);
    assert forall i :: 1 <= i < |w| ==> IsLower(w[i]);
    assert Lower(w) == "constructor";
  }

  // ----------------------------------------------------------- registry

  /** One registry record. */
  datatype RegistryRecord = RegistryRecord(name: string, id: string, path: string)

  function RecordOf(e: Entry): RegistryRecord {
    RegistryRecord(e.name, e.id, e.importPath)
  }

  /** An entry that may be listed: renderable bucket, and a name that does
      not start with `use` or `mock` (case-sensitive). */
  predicate Eligible(e: Entry) {
    Renderable(BucketOf(e.category)) && !StartsWith(e.name, "use") && !StartsWith(e.name, "mock")
  }

  function RecordIds(rs: seq<RegistryRecord>): set<string> {
    set i | 0 <= i < |rs| :: rs[i].id
  }

  /** The registry the entries produce: each eligible entry whose id has
      not been listed yet is appended. */
  function RegistryOf(entries: seq<Entry>): seq<RegistryRecord> {
    if entries == [] then []
    else
      var prev := RegistryOf(entries[..|entries| - 1]);
      var e := entries[|entries| - 1];
      if Eligible(e) && e.id !in RecordIds(prev) then prev + [RecordOf(e)] else prev
  }

  function EligibleIds(entries: seq<Entry>): set<string> {
    set i | 0 <= i < |entries| && Eligible(entries[i]) :: entries[i].id
  }

  /** The ids listed are exactly the ids of the eligible entries. */
  lemma {:induction false} RegistryIds(entries: seq<Entry>)
    ensures RecordIds(RegistryOf(entries)) == EligibleIds(entries)
  {
    if entries != [] {
      var n := |entries| - 1;
      RegistryIds(entries[..n]);
      EligibleIdsSnoc(entries);
      var prev := RegistryOf(entries[..n]);
      if Eligible(entries[n]) && entries[n].id !in RecordIds(prev) {
        RecordIdsSnoc(prev, RecordOf(entries[n]));
      }
    }
  }

  lemma EligibleIdsSnoc(entries: seq<Entry>)
    requires entries != []
    ensures EligibleIds(entries) ==
      EligibleIds(entries[..|entries| - 1]) +
        if Eligible(entries[|entries| - 1]) then {entries[|entries| - 1].id} else {}
  {
    var n := |entries| - 1;
    forall i | 0 <= i < n
      ensures entries[..n][i] == entries[i]
    {
    }
  }

  lemma RecordIdsSnoc(rs: seq<RegistryRecord>, r: RegistryRecord)
    ensures RecordIds(rs + [r]) == RecordIds(rs) + {r.id}
  {
    var s := rs + [r];
    assert s[|rs|] == r;
    forall i | 0 <= i < |rs|
      ensures s[i] == rs[i]
    {
    }
  }

  predicate DistinctRecordIds(rs: seq<RegistryRecord>) {
    forall i, j :: 0 <= i < j < |rs| ==> rs[i].id != rs[j].id
  }

  /** Registry ids are pairwise distinct. */
  lemma {:induction false} RegistryDistinct(entries: seq<Entry>)
    ensures DistinctRecordIds(RegistryOf(entries))
  {
    if entries != [] {
      RegistryDistinct(entries[..|entries| - 1]);
    }
  }

  /** The last entry is the first eligible one with its id. */
  predicate FirstEligible(entries: seq<Entry>)
    requires entries != []
  {
    var n := |entries| - 1;
    Eligible(entries[n]) && forall j :: 0 <= j < n && Eligible(entries[j]) ==> entries[j].id != entries[n].id
  }

  /** The registry described directly: the records of the entries that are
      the first eligible ones with their ids, in scan order. */
  function FirstEligibleRecords(entries: seq<Entry>): seq<RegistryRecord> {
    if entries == [] then []
    else
      FirstEligibleRecords(entries[..|entries| - 1]) +
        if FirstEligible(entries) then [RecordOf(entries[|entries| - 1])] else []
  }

  /** The first entry per id wins: the registry is the records of the first
      eligible entry of each id, in scan order. */
  lemma {:induction false} RegistryIsFirstEligible(entries: seq<Entry>)
    ensures RegistryOf(entries) == FirstEligibleRecords(entries)
  {
    if entries != [] {
      var n := |entries| - 1;
      var init := entries[..n];
      RegistryIsFirstEligible(init);
      RegistryIds(init);
      var e := entries[n];
      if Eligible(e) {
        if e.id in EligibleIds(init) {
          var j :| 0 <= j < n && Eligible(init[j]) && init[j].id == e.id;
          assert entries[j] == init[j];
          assert !FirstEligible(entries);
        } else {
          forall j | 0 <= j < n && Eligible(entries[j])
            ensures entries[j].id != e.id
          {
            assert init[j] == entries[j];
          }
          assert FirstEligible(entries);
        }
      }
    }
  }

  // ---------------------------------------------------------- the pipeline

  /** The comment text handed to the comment parser. */
  function Reconstructed(block: string): string {
    "/**" + block + "*/"
  }

  /** The entry a wizard comment with a name yields, before its version. */
  function DraftOf(doc: Doc, filePath: string): Entry {
    Draft(doc).(importPath := ImportPath(filePath))
  }

  predicate Yields(doc: Doc) {
    IsWizard(doc) && Draft(doc).name != []
  }

  /** The unversioned entries of a sequence of comment blocks, in order. */
  function DraftsOf(blocks: seq<string>, filePath: string, parse: string -> Doc): seq<Entry> {
    if blocks == [] then []
    else
      var doc := parse(Reconstructed(blocks[|blocks| - 1]));
      DraftsOf(blocks[..|blocks| - 1], filePath, parse) + if Yields(doc) then [DraftOf(doc, filePath)] else []
  }

  /** Every entry comes from a wizard comment with a non-empty name, carries
      the id derived from that name, and is imported from its file. */
  lemma {:induction false} DraftsShape(blocks: seq<string>, filePath: string, parse: string -> Doc)
    ensures forall i :: 0 <= i < |DraftsOf(blocks, filePath, parse)| ==>
      var d := DraftsOf(blocks, filePath, parse)[i];
      d.name != [] && d.id == Slug(d.name) && d.importPath == ImportPath(filePath) && d.version == Initial
  {
    if blocks != [] {
      var doc := parse(Reconstructed(blocks[|blocks| - 1]));
      DraftsShape(blocks[..|blocks| - 1], filePath, parse);
      DraftFields(doc);
    }
  }

  /** Comments without a wizard tag yield nothing. */
  lemma {:induction false} NoWizardNoEntries(blocks: seq<string>, filePath: string, parse: string -> Doc)
    requires forall i :: 0 <= i < |blocks| ==> !IsWizard(parse(Reconstructed(blocks[i])))
    ensures DraftsOf(blocks, filePath, parse) == []
  {
    if blocks != [] {
      NoWizardNoEntries(blocks[..|blocks| - 1], filePath, parse);
    }
  }

  /** Entries come in the order of their comments. */
  lemma {:induction false} DraftsAppend(a: seq<string>, b: seq<string>, filePath: string, parse: string -> Doc)
    ensures DraftsOf(a + b, filePath, parse) == DraftsOf(a, filePath, parse) + DraftsOf(b, filePath, parse)
    decreases |b|
  {
    if b == [] {
      assert a + b == a;
    } else {
      var bs := b[..|b| - 1];
      assert (a + b)[..|a + b| - 1] == a + bs;
      assert (a + b)[|a + b| - 1] == b[|b| - 1];
      DraftsAppend(a, bs, filePath, parse);
    }
  }

  /** What versioning keys an entry by. */
  function KeyOf(e: Entry, digest: Snapshot -> string): Key {
    Key(e.id, digest(SnapshotOf(e)))
  }

  function KeysOf(es: seq<Entry>, digest: Snapshot -> string): (r: seq<Key>)
    ensures |r| == |es| && forall i :: 0 <= i < |es| ==> r[i] == KeyOf(es[i], digest)
  {
    seq(|es|, i requires 0 <= i < |es| => KeyOf(es[i], digest))
  }

  /** The entries with the versions a run assigned. */
  function Stamp(es: seq<Entry>, vs: seq<Version>): (r: seq<Entry>)
    requires |vs| == |es|
    ensures |r| == |es| && forall i :: 0 <= i < |es| ==> r[i] == es[i].(version := vs[i])
  {
    seq(|es|, i requires 0 <= i < |es| => es[i].(version := vs[i]))
  }

  /** The entries of one file, with the file's path recorded. */
  function WithPath(es: seq<Entry>, filePath: string): (r: seq<Entry>)
    ensures |r| == |es| && forall i :: 0 <= i < |es| ==> r[i] == es[i].(filePath := filePath)
  {
    seq(|es|, i requires 0 <= i < |es| => es[i].(filePath := filePath))
  }

  /** The unversioned entries of a run over the given files. */
  function AllDrafts(files: seq<SourceFile>, parse: string -> Doc): seq<Entry> {
    if files == [] then []
    else
      var f := files[|files| - 1];
      AllDrafts(files[..|files| - 1], parse) + WithPath(DraftsOf(Blocks(f.content), f.path, parse), f.path)
  }

  /** The result of a run: the entries in scan order, versioned, and the
      history left behind. */
  datatype Outcome = Outcome(entries: seq<Entry>, history: map<string, Record>)

  function Generate(files: seq<SourceFile>, parse: string -> Doc, digest: Snapshot -> string,
                    h: map<string, Record>): (r: Outcome)
    ensures |r.entries| == |AllDrafts(files, parse)|
  {
    var drafts := AllDrafts(files, parse);
    var run := RunAll(h, KeysOf(drafts, digest));
    Outcome(Stamp(drafts, run.versions), run.history)
  }

  /** Recording the path changes neither the id nor the fingerprint. */
  lemma KeysIgnorePath(es: seq<Entry>, filePath: string, digest: Snapshot -> string)
    ensures KeysOf(WithPath(es, filePath), digest) == KeysOf(es, digest)
  {
  }

  /** Idempotence of a whole run: when the entries' ids are distinct, a
      second run over unchanged sources from the history the first one wrote
      assigns the same versions and writes the same history. */
  lemma GenerateIdempotent(files: seq<SourceFile>, parse: string -> Doc, digest: Snapshot -> string,
                           h: map<string, Record>)
    requires DistinctIds(KeysOf(AllDrafts(files, parse), digest))
    ensures Generate(files, parse, digest, Generate(files, parse, digest, h).history) == Generate(files, parse, digest, h)
  {
    RunIdempotent(h, KeysOf(AllDrafts(files, parse), digest));
  }

  /** Across a run, the history keeps every id it had, at the same or a later
      version, and gains exactly the ids of the run's entries. */
  lemma GenerateMonotone(files: seq<SourceFile>, parse: string -> Doc, digest: Snapshot -> string,
                         h: map<string, Record>)
    ensures Generate(files, parse, digest, h).history.Keys == h.Keys + Ids(KeysOf(AllDrafts(files, parse), digest))
    ensures forall id :: id in h ==> AtMost(h[id].version, Generate(files, parse, digest, h).history[id].version)
  {
    RunMonotone(h, KeysOf(AllDrafts(files, parse), digest));
  }

  // ---------------------------------------------------------- the methods

  /** `parseJsDoc`: the entries of one file, versioned against and recorded
      in the history as they are found. */
  method ParseJsDoc(content: string, filePath: string, parse: string -> Doc, digest: Snapshot -> string,
                    history: History) returns (entries: seq<Entry>)
    modifies history
    ensures var drafts := DraftsOf(Blocks(content), filePath, parse);
            var run := RunAll(old(history.records), KeysOf(drafts, digest));
            entries == Stamp(drafts, run.versions) && history.records == run.history
  {
    entries := ParseBlocks(Blocks(content), filePath, parse, digest, history);
  }

  /** The loop over a file's comment blocks, in order. */
  method ParseBlocks(blocks: seq<string>, filePath: string, parse: string -> Doc, digest: Snapshot -> string,
                     history: History) returns (entries: seq<Entry>)
    modifies history
    ensures var drafts := DraftsOf(blocks, filePath, parse);
            var run := RunAll(old(history.records), KeysOf(drafts, digest));
            entries == Stamp(drafts, run.versions) && history.records == run.history
  {
    ghost var h0 := history.records;
    entries := [];
    for i := 0 to |blocks|
      invariant var drafts := DraftsOf(blocks[..i], filePath, parse);
                var run := RunAll(h0, KeysOf(drafts, digest));
                entries == Stamp(drafts, run.versions) && history.records == run.history
    {
      ghost var drafts := DraftsOf(blocks[..i], filePath, parse);
      assert blocks[..i + 1][..i] == blocks[..i];
      ghost var yielded := BlockDrafts(blocks[i], filePath, parse);
      assert DraftsOf(blocks[..i + 1], filePath, parse) == drafts + yielded;
      RunStampAppend(h0, drafts, yielded, digest);
      var found := ParseBlock(blocks[i], filePath, parse, digest, history);
      entries := entries + found;
    }
    assert blocks[..|blocks|] == blocks;
  }

  /** The entry one comment block yields, if any. */
  function BlockDrafts(block: string, filePath: string, parse: string -> Doc): seq<Entry> {
    var doc := parse(Reconstructed(block));
    if Yields(doc) then [DraftOf(doc, filePath)] else []
  }

  /** One turn of the loop over comment blocks: parse, build the entry, and
      version and record it when it is a named wizard entry. */
  method ParseBlock(block: string, filePath: string, parse: string -> Doc, digest: Snapshot -> string,
                    history: History) returns (found: seq<Entry>)
    modifies history
    ensures var ds := BlockDrafts(block, filePath, parse);
            var run := RunAll(old(history.records), KeysOf(ds, digest));
            found == Stamp(ds, run.versions) && history.records == run.history
  {
    ghost var h := history.records;
    var ast := parse(Reconstructed(block));
    found := [];
    if IsWizard(ast) {
      var entry := BuildEntry(ast);
      if entry.name != [] {
        entry := entry.(importPath := ImportPath(filePath));
        var fingerprint := digest(SnapshotOf(entry));
        var v := history.Reconcile(entry.id, fingerprint);
        RunOne(h, entry, digest);
        found := [entry.(version := v)];
      }
    }
  }

  /** Running a single entry reconciles its id and fingerprint once. */
  lemma RunOne(h: map<string, Record>, e: Entry, digest: Snapshot -> string)
    ensures var fp := digest(SnapshotOf(e));
            var v := Reconciled(h, e.id, fp);
            RunAll(h, KeysOf([e], digest)) == Run([v], h[e.id := Record(v, fp)])
            && Stamp([e], [v]) == [e.(version := v)]
  {
    assert KeysOf([e], digest) == [KeyOf(e, digest)];
    assert KeysOf([e], digest)[..0] == [];
  }

  /** Running the keys of `a + b` is running those of `a`, then those of `b`
      from the history `a` left. */
  lemma RunStampAppend(h: map<string, Record>, a: seq<Entry>, b: seq<Entry>, digest: Snapshot -> string)
    ensures var ra := RunAll(h, KeysOf(a, digest));
            var rb := RunAll(ra.history, KeysOf(b, digest));
            var r := RunAll(h, KeysOf(a + b, digest));
            Stamp(a + b, r.versions) == Stamp(a, ra.versions) + Stamp(b, rb.versions)
            && r.history == rb.history
  {
    var ka := KeysOf(a, digest);
    var kb := KeysOf(b, digest);
    KeysAppend(a, b, digest);
    RunAppend(h, ka, kb);
    var ra := RunAll(h, ka);
    StampAppend(a, ra.versions, b, RunAll(ra.history, kb).versions);
  }

  /** The bookkeeping of the loop over files and entries: the entries seen
      so far, the manifest and registry they produce, the ids listed, and
      their count. */
  predicate Tallied(done: seq<Entry>, m: Manifest, registry: seq<RegistryRecord>, seen: set<string>, total: nat) {
    && m == Bucketed(done) && registry == RegistryOf(done)
    && seen == RecordIds(registry) && total == |done|
  }

  lemma KeysAppend(a: seq<Entry>, b: seq<Entry>, digest: Snapshot -> string)
    ensures KeysOf(a + b, digest) == KeysOf(a, digest) + KeysOf(b, digest)
  {
  }

  lemma StampAppend(a: seq<Entry>, va: seq<Version>, b: seq<Entry>, vb: seq<Version>)
    requires |va| == |a| && |vb| == |b|
    ensures Stamp(a + b, va + vb) == Stamp(a, va) + Stamp(b, vb)
  {
  }

  lemma StampWithPath(es: seq<Entry>, vs: seq<Version>, filePath: string)
    requires |vs| == |es|
    ensures Stamp(WithPath(es, filePath), vs) == WithPath(Stamp(es, vs), filePath)
  {
  }

  /** One entry through the loop body: counted, filed, and listed when it is
      eligible and its id is new. */
  lemma TallyStep(done: seq<Entry>, m: Manifest, registry: seq<RegistryRecord>, seen: set<string>, total: nat,
                  e: Entry)
    requires Tallied(done, m, registry, seen, total)
    ensures var add := Eligible(e) && e.id !in seen;
            Tallied(done + [e], Place(m, BucketOf(e.category), e),
                    if add then registry + [RecordOf(e)] else registry,
                    if add then seen + {e.id} else seen, total + 1)
  {
    assert (done + [e])[..|done|] == done;
    RecordIdsSnoc(registry, RecordOf(e));
  }

  lemma WithPathSnoc(es: seq<Entry>, e: Entry, filePath: string)
    ensures WithPath(es + [e], filePath) == WithPath(es, filePath) + [e.(filePath := filePath)]
  {
  }

  /** A run over one more file continues the run over the earlier ones: its
      entries follow theirs, versioned against the history they left. */
  lemma GenerateSnoc(prior: seq<SourceFile>, f: SourceFile, parse: string -> Doc, digest: Snapshot -> string,
                     h: map<string, Record>)
    ensures var prev := Generate(prior, parse, digest, h);
            var fd := DraftsOf(Blocks(f.content), f.path, parse);
            var fr := RunAll(prev.history, KeysOf(fd, digest));
            Generate(prior + [f], parse, digest, h) ==
              Outcome(prev.entries + WithPath(Stamp(fd, fr.versions), f.path), fr.history)
  {
    var files := prior + [f];
    assert files[..|files| - 1] == prior && files[|files| - 1] == f;
    var a := AllDrafts(prior, parse);
    var fd := DraftsOf(Blocks(f.content), f.path, parse);
    var b := WithPath(fd, f.path);
    assert AllDrafts(files, parse) == a + b;
    KeysIgnorePath(fd, f.path, digest);
    RunStampAppend(h, a, b, digest);
    var ra := RunAll(h, KeysOf(a, digest));
    StampWithPath(fd, RunAll(ra.history, KeysOf(fd, digest)).versions, f.path);
  }

  /** What the loop over files keeps: once a file's entries are parsed
      against the history the earlier files left, the run covers one more
      file. */
  lemma FileStep(prior: seq<SourceFile>, f: SourceFile, parse: string -> Doc, digest: Snapshot -> string,
                 h: map<string, Record>, entries: seq<Entry>, records: map<string, Record>)
    requires var fd := DraftsOf(Blocks(f.content), f.path, parse);
             var fr := RunAll(Generate(prior, parse, digest, h).history, KeysOf(fd, digest));
             entries == Stamp(fd, fr.versions) && records == fr.history
    ensures Generate(prior, parse, digest, h).entries + WithPath(entries, f.path)
            == Generate(prior + [f], parse, digest, h).entries
    ensures records == Generate(prior + [f], parse, digest, h).history
  {
    GenerateSnoc(prior, f, parse, digest, h);
  }

  /** `buildManifest`: walks the tree, parses every file, files each entry in
      its bucket and lists the eligible ones, first id wins. */
  method BuildManifest(dir: string, items: seq<Item>, parse: string -> Doc, digest: Snapshot -> string,
                       history: History)
    returns (manifest: Manifest, registry: seq<RegistryRecord>, totalEntries: nat)
    modifies history
    ensures var out := Generate(SourceFiles(dir, items), parse, digest, old(history.records));
            && history.records == out.history
            && manifest == Bucketed(out.entries)
            && registry == RegistryOf(out.entries)
            && totalEntries == |out.entries|
  {
    var files := GetSourceFiles(dir, items);
    manifest, registry, totalEntries := TallyFiles(files, parse, digest, history);
  }

  /** The loop over the files, in scan order. */
  method TallyFiles(files: seq<SourceFile>, parse: string -> Doc, digest: Snapshot -> string, history: History)
    returns (manifest: Manifest, registry: seq<RegistryRecord>, totalEntries: nat)
    modifies history
    ensures var out := Generate(files, parse, digest, old(history.records));
            && history.records == out.history
            && manifest == Bucketed(out.entries)
            && registry == RegistryOf(out.entries)
            && totalEntries == |out.entries|
  {
    manifest := EmptyManifest;
    registry := [];
    var seen: set<string> := {};
    totalEntries := 0;
    ghost var h0 := history.records;
    ghost var done: seq<Entry> := [];
    for i := 0 to |files|
      invariant done == Generate(files[..i], parse, digest, h0).entries
      invariant history.records == Generate(files[..i], parse, digest, h0).history
      invariant Tallied(done, manifest, registry, seen, totalEntries)
    {
      var file := files[i];
      var entries := ParseJsDoc(file.content, file.path, parse, digest, history);
      manifest, registry, seen, totalEntries := TallyEntries(entries, file.path, done, manifest, registry, seen, totalEntries);
      FileStep(files[..i], file, parse, digest, h0, entries, history.records);
      done := done + WithPath(entries, file.path);
      TakeOneMore(files, i);
    }
    TakeAll(files);
  }

  /** The loop over one file's entries: each is counted, filed in its
      bucket, and listed when eligible and its id is new. */
  method TallyEntries(entries: seq<Entry>, filePath: string, ghost done0: seq<Entry>,
                      manifest0: Manifest, registry0: seq<RegistryRecord>, seen0: set<string>, total0: nat)
    returns (manifest: Manifest, registry: seq<RegistryRecord>, seen: set<string>, totalEntries: nat)
    requires Tallied(done0, manifest0, registry0, seen0, total0)
    ensures Tallied(done0 + WithPath(entries, filePath), manifest, registry, seen, totalEntries)
  {
    manifest, registry, seen, totalEntries := manifest0, registry0, seen0, total0;
    ghost var done := done0;
    for j := 0 to |entries|
      invariant done == done0 + WithPath(entries[..j], filePath)
      invariant Tallied(done, manifest, registry, seen, totalEntries)
    {
      var entry := entries[j].(filePath := filePath);
      TallyStep(done, manifest, registry, seen, totalEntries, entry);
      totalEntries := totalEntries + 1;
      var bucket := BucketOf(entry.category);
      manifest := Place(manifest, bucket, entry);
      if Renderable(bucket) && !StartsWith(entry.name, "use") && !StartsWith(entry.name, "mock") {
        if entry.id !in seen {
          seen := seen + {entry.id};
          registry := registry + [RecordOf(entry)];
        }
      }
      done := done + [entry];
      TakeOneMore(entries, j);
      WithPathSnoc(entries[..j], entries[j], filePath);
      AppendAssoc(done0, WithPath(entries[..j], filePath), [entry]);
    }
    TakeAll(entries);
  }
}
