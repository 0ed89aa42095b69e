/** Version reconciliation of the manifest generator: the persisted
    id -> {version, fingerprint} history, `bumpVersion`, and the per-entry
    decision between a new entry, an unchanged one and a patch bump. */
module Versioning {
  import opened JsObjects

  /** A `MAJOR.MINOR.PATCH` version. */
  datatype Version = Version(major: nat, minor: nat, patch: nat)

  /** The version every entry starts at. */
  const Initial := Version(1, 0, 0)

  /** `bumpVersion`: only the third segment is incremented, with no rollover. */
  function Bump(v: Version): (r: Version)
    ensures r.major == v.major && r.minor == v.minor && r.patch == v.patch + 1
  {
    Version(v.major, v.minor, v.patch + 1)
  }

  /** The usual precedence of versions, field by field. */
  predicate AtMost(a: Version, b: Version) {
    || a.major < b.major
    || (a.major == b.major && a.minor < b.minor)
    || (a.major == b.major && a.minor == b.minor && a.patch <= b.patch)
  }

  lemma AtMostTransitive(a: Version, b: Version, c: Version)
    requires AtMost(a, b) && AtMost(b, c)
    ensures AtMost(a, c)
  {
  }

  /** One persisted history record (its timestamp is not modelled). */
  datatype Record = Record(version: Version, fingerprint: string)

  /** The version an entry with this id and fingerprint receives against
      history `h`, when only the history's own records are consulted: a
      recorded id never goes down, and moves up exactly when its
      fingerprint changed. */
  function Reconciled(h: map<string, Record>, id: string, fp: string): (r: Version)
    ensures id in h ==> AtMost(h[id].version, r)
    ensures id in h ==> (r == h[id].version <==> h[id].fingerprint == fp)
  {
    if id !in h then Initial
    else if h[id].fingerprint == fp then h[id].version
    else Bump(h[id].version)
  }

  /** What the reconciliation of lines 145-156 ends in: a version, or the
      `TypeError` that ends the whole run. */
  datatype Outcome = Versioned(version: Version) | Throws

  /** The reconciliation as written. `componentHistory[id]` is a lookup on a
      plain object, so an id with no record of its own that names a property
      inherited from `Object.prototype` finds that property. It is truthy and
      has neither a `fingerprint` nor a `version`, so `bumpVersion(undefined)`
      is called and throws. */
  function ReconciledAsWritten(h: map<string, Record>, id: string, fp: string): (r: Outcome)
    ensures r.Throws? <==> id !in h && id in InheritedKeys
  {
    if id in h then
      if h[id].fingerprint == fp then Versioned(h[id].version) else Versioned(Bump(h[id].version))
    else if id in InheritedKeys then Throws
    else Versioned(Initial)
  }

  /** The lookup as written and the own-record one agree on every id except
      the inherited names with no record, where the written one throws. */
  lemma AsWrittenAgrees(h: map<string, Record>, id: string, fp: string)
    ensures id in h || id !in InheritedKeys ==> ReconciledAsWritten(h, id, fp) == Versioned(Reconciled(h, id, fp))
    ensures id !in h && id in InheritedKeys ==> ReconciledAsWritten(h, id, fp) == Throws
  {
  }

  /** On a fresh history the id `constructor` throws as written, while the
      own-record lookup starts it at 1.0.0. */
  lemma ConstructorThrows(fp: string)
    ensures ReconciledAsWritten(map[], "constructor", fp) == Throws
    ensures Reconciled(map[], "constructor", fp) == Initial
  {
  }

  /** The three outcomes: a new id starts at 1.0.0, an equal fingerprint keeps
      the stored version, a different one bumps the patch, so a version never
      goes down. */
  lemma ReconciledOutcomes(h: map<string, Record>, id: string, fp: string)
    ensures id !in h ==> Reconciled(h, id, fp) == Version(1, 0, 0)
    ensures id in h && h[id].fingerprint == fp ==> Reconciled(h, id, fp) == h[id].version
    ensures id in h && h[id].fingerprint != fp ==>
      Reconciled(h, id, fp) == Version(h[id].version.major, h[id].version.minor, h[id].version.patch + 1)
    ensures id in h ==> AtMost(h[id].version, Reconciled(h, id, fp))
  {
  }

  /** The persisted history that `parseJsDoc` consults and overwrites. */
  class History {
    var records: map<string, Record>

    constructor (initial: map<string, Record>)
      ensures records == initial
    {
      records := initial;
    }

    /** Looks the id up, decides the version, and overwrites the record at once. */
    method Reconcile(id: string, fp: string) returns (v: Version)
      modifies this
      ensures v == Reconciled(old(records), id, fp)
      ensures records == old(records)[id := Record(v, fp)]
    {
      v := Initial;
      if id in records {
        var h := records[id];
        if h.fingerprint == fp {
          v := h.version;
        } else {
          v := Bump(h.version);
        }
      }
      records := records[id := Record(v, fp)];
    }
  }

  /** What a run reconciles: an entry's id and its fingerprint. */
  datatype Key = Key(id: string, fp: string)

  /** The versions a run assigns, and the history it leaves behind. */
  datatype Run = Run(versions: seq<Version>, history: map<string, Record>)

  /** Reconciling a sequence of keys one after another against a history
      that each step overwrites. */
  function RunAll(h: map<string, Record>, ks: seq<Key>): (r: Run)
    ensures |r.versions| == |ks|
  {
    if ks == [] then Run([], h)
    else
      var prev := RunAll(h, ks[..|ks| - 1]);
      var k := ks[|ks| - 1];
      var v := Reconciled(prev.history, k.id, k.fp);
      Run(prev.versions + [v], prev.history[k.id := Record(v, k.fp)])
  }

  function Ids(ks: seq<Key>): set<string> {
    set i | 0 <= i < |ks| :: ks[i].id
  }

  /** A run over `a + b` is the run over `a` followed by the run over `b`
      from the history it left. */
  lemma {:induction false} RunAppend(h: map<string, Record>, a: seq<Key>, b: seq<Key>)
    ensures RunAll(h, a + b).history == RunAll(RunAll(h, a).history, b).history
    ensures RunAll(h, a + b).versions == RunAll(h, a).versions + RunAll(RunAll(h, a).history, b).versions
    decreases |b|
  {
    if b == [] {
      assert a + b == a;
    } else {
      var bs := b[..|b| - 1];
      assert (a + b)[..|a + b| - 1] == a + bs;
      assert (a + b)[|a + b| - 1] == b[|b| - 1];
      RunAppend(h, a, bs);
    }
  }

  /** Version monotonicity across a run: every id already in the history is
      still there afterwards at the same or a later version, the run adds
      exactly the ids it saw, and the record of each id seen is the last
      one written for it. */
  lemma {:induction false} RunMonotone(h: map<string, Record>, ks: seq<Key>)
    ensures RunAll(h, ks).history.Keys == h.Keys + Ids(ks)
    ensures forall id :: id in h ==> AtMost(h[id].version, RunAll(h, ks).history[id].version)
  {
    if ks != [] {
      var init := ks[..|ks| - 1];
      var k := ks[|ks| - 1];
      RunMonotone(h, init);
      var prev := RunAll(h, init);
      assert Ids(ks) == Ids(init) + {k.id} by {
        assert forall i :: 0 <= i < |init| ==> init[i] == ks[i];
      }
      forall id | id in h
        ensures AtMost(h[id].version, RunAll(h, ks).history[id].version)
      {
        if id == k.id {
          ReconciledOutcomes(prev.history, k.id, k.fp);
          AtMostTransitive(h[id].version, prev.history[id].version, Reconciled(prev.history, k.id, k.fp));
        }
      }
    }
  }

  /** An id that was not in the history and has not been seen earlier in the
      run starts at 1.0.0. */
  lemma {:induction false} FirstSightIsInitial(h: map<string, Record>, ks: seq<Key>, i: nat)
    requires i < |ks|
    requires ks[i].id !in h && ks[i].id !in Ids(ks[..i])
    ensures RunAll(h, ks).versions[i] == Initial
  {
    RunAppend(h, ks[..i + 1], ks[i + 1..]);
    assert ks[..i + 1] + ks[i + 1..] == ks;
    assert ks[..i + 1][..i] == ks[..i];
    RunMonotone(h, ks[..i]);
  }

  /** A history that already records, for each key, the version to keep and
      that key's fingerprint, is left as it is, and every key keeps its version. */
  lemma {:induction false} StableRun(g: map<string, Record>, ks: seq<Key>, vs: seq<Version>)
    requires |vs| == |ks|
    requires forall i :: 0 <= i < |ks| ==> ks[i].id in g && g[ks[i].id] == Record(vs[i], ks[i].fp)
    ensures RunAll(g, ks) == Run(vs, g)
  {
    if ks != [] {
      var n := |ks| - 1;
      StableRun(g, ks[..n], vs[..n]);
      assert vs[..n] + [vs[n]] == vs;
    }
  }

  predicate DistinctIds(ks: seq<Key>) {
    forall i, j :: 0 <= i < j < |ks| ==> ks[i].id != ks[j].id
  }

  /** With distinct ids, the history after a run holds each key's own
      version and fingerprint. */
  lemma {:induction false} RunRecordsEachKey(h: map<string, Record>, ks: seq<Key>)
    requires DistinctIds(ks)
    ensures forall i :: 0 <= i < |ks| ==>
      ks[i].id in RunAll(h, ks).history &&
      RunAll(h, ks).history[ks[i].id] == Record(RunAll(h, ks).versions[i], ks[i].fp)
  {
    if ks != [] {
      var n := |ks| - 1;
      RunRecordsEachKey(h, ks[..n]);
    }
  }

  /** Idempotence: when the ids of a run are distinct, running again over the
      same keys from the history the first run left assigns the same versions
      and leaves that history unchanged. */
  lemma RunIdempotent(h: map<string, Record>, ks: seq<Key>)
    requires DistinctIds(ks)
    ensures RunAll(RunAll(h, ks).history, ks) == RunAll(h, ks)
  {
    var first := RunAll(h, ks);
    RunRecordsEachKey(h, ks);
    StableRun(first.history, ks, first.versions);
  }

  /** Two entries with one id and different fingerprints overwrite each
      other's record within a run, so a second run over unchanged sources
      bumps both again: without distinct ids the run is not idempotent. */
  lemma SharedIdIsNotIdempotent(fa: string, fb: string)
    requires fa != fb
    ensures RunAll(map[], [Key("card", fa), Key("card", fb)]).versions == [Version(1, 0, 0), Version(1, 0, 1)]
    ensures RunAll(RunAll(map[], [Key("card", fa), Key("card", fb)]).history, [Key("card", fa), Key("card", fb)]).versions
            == [Version(1, 0, 2), Version(1, 0, 3)]
  {
    var ka, kb := Key("card", fa), Key("card", fb);
    var ks := [ka, kb];
    assert ks[..1] == [ka];
    assert [ka][..0] == [];
    assert RunAll(map[], []) == Run([], map[]);
    var r0 := RunAll(map[], [ka]);
    assert r0.history == map["card" := Record(Initial, fa)];
    assert r0.versions == [Initial];
    var r1 := RunAll(map[], ks);
    assert r1.history == map["card" := Record(Version(1, 0, 1), fb)];
    assert RunAll(r1.history, []) == Run([], r1.history);
    var s0 := RunAll(r1.history, [ka]);
    assert s0.history == map["card" := Record(Version(1, 0, 2), fa)];
    assert s0.versions == [Version(1, 0, 2)];
  }
}
