/** `attachArchive`: the files of a ZIP matched with messages that wait for their media, through
    three indices, and stored in bounded batches. */
module MediaArchive {
  import opened Prelude

  /** An identifier, a canonical path, a base name or a digest: all that is done with one is to
      compare it. */
  type Key = int

  datatype Candidate = Candidate(id: Key, canonicalPath: Key, baseName: Key, sha256: Option<Key>)

  /** One entry of the archive: its declared size, and the length and digest of what is read from it. */
  datatype Entry = Entry(isDirectory: bool, unsafe: bool, canonicalPath: Key, baseName: Key,
                         uncompressedSize: int, length: nat, sha256: Key)

  datatype Limits = Limits(maximumEntries: nat, maximumUncompressedBytes: nat, maximumFileBytes: nat, concurrency: nat)
  {
    /** Configured limits are positive. */
    predicate Positive() {
      maximumEntries > 0 && maximumUncompressedBytes > 0 && maximumFileBytes > 0 && concurrency > 0
    }
  }

  /** One file to store, for the candidates it was matched with. */
  datatype Job = Job(candidates: seq<Candidate>, sha256: Key, length: nat)

  datatype Matched = Matched(candidates: seq<Candidate>, ambiguous: bool)

  predicate DistinctIds(cs: seq<Candidate>) {
    forall i, j | 0 <= i < j < |cs| :: cs[i].id != cs[j].id
  }

  /** The candidate's digest is unknown or the entry's. */
  predicate Agrees(c: Candidate, sha256: Key) {
    c.sha256.None? || c.sha256.value == sha256
  }

  /** The tests candidates are filtered by. */
  datatype Test =
    | PathIs(key: Key)
    | BaseNameIs(key: Key)
    | HashIs(key: Key)
    | IsFree(reserved: set<Key>)
    | IsFreeAndAgrees(reserved: set<Key>, sha256: Key)
  {
    predicate Holds(c: Candidate) {
      match this
      case PathIs(key) => c.canonicalPath == key
      case BaseNameIs(key) => c.baseName == key
      case HashIs(key) => c.sha256 == Some(key)
      case IsFree(reserved) => c.id !in reserved
      case IsFreeAndAgrees(reserved, sha256) => c.id !in reserved && Agrees(c, sha256)
    }
  }

  function Filter(cs: seq<Candidate>, test: Test): (r: seq<Candidate>)
    ensures forall c :: c in r <==> c in cs && test.Holds(c)
  {
    if cs == [] then []
    else
      assert cs == [cs[0]] + cs[1..];
      (if test.Holds(cs[0]) then [cs[0]] else []) + Filter(cs[1..], test)
  }

  // ----- matching by a direct scan -----

  function ByPath(candidates: seq<Candidate>, path: Key): seq<Candidate> {
    Filter(candidates, PathIs(path))
  }

  function ByBaseName(candidates: seq<Candidate>, name: Key): seq<Candidate> {
    Filter(candidates, BaseNameIs(name))
  }

  function ByHash(candidates: seq<Candidate>, sha256: Key): seq<Candidate> {
    Filter(candidates, HashIs(sha256))
  }

  /** The first of each identifier, in order. */
  function Unique(cs: seq<Candidate>): (r: seq<Candidate>)
    ensures DistinctIds(r) && (r == [] <==> cs == [])
    ensures forall c :: c in r ==> c in cs
  {
    if cs == [] then []
    else
      var last := |cs| - 1;
      var front := Unique(cs[..last]);
      assert cs == cs[..last] + [cs[last]];
      if exists i | 0 <= i < |front| :: front[i].id == cs[last].id then front else front + [cs[last]]
  }

  /** What `matchCandidates` decides from the lists it looks up. */
  function Decide(paths: seq<Candidate>, hashes: seq<Candidate>, names: seq<Candidate>,
                  sha256: Key, reserved: set<Key>): Matched {
    var exact := Filter(paths, IsFreeAndAgrees(reserved, sha256));
    var hashed := Filter(hashes, IsFree(reserved));
    var identified := Unique(exact + hashed);
    if identified != [] then Matched(identified, false)
    else
      var fallback := Filter(names, IsFreeAndAgrees(reserved, sha256));
      Matched(if |fallback| == 1 then fallback else [], |fallback| > 1)
  }

  /** The match by scanning all candidates. */
  function Match(candidates: seq<Candidate>, entry: Entry, reserved: set<Key>): Matched {
    Decide(ByPath(candidates, entry.canonicalPath), ByHash(candidates, entry.sha256),
           ByBaseName(candidates, entry.baseName), entry.sha256, reserved)
  }

  lemma MatchedAreFree(candidates: seq<Candidate>, entry: Entry, reserved: set<Key>)
    ensures var m := Match(candidates, entry, reserved).candidates;
            DistinctIds(m) && forall c | c in m :: c in candidates && c.id !in reserved && Agrees(c, entry.sha256)
  {
    var paths, hashes := ByPath(candidates, entry.canonicalPath), ByHash(candidates, entry.sha256);
    var exact := Filter(paths, IsFreeAndAgrees(reserved, entry.sha256));
    var hashed := Filter(hashes, IsFree(reserved));
    assert forall c | c in exact + hashed :: c in exact || c in hashed;
  }

  // ----- the indices -----

  type Index = map<Key, seq<Candidate>>

  function Lookup(index: Index, key: Key): seq<Candidate> {
    if key in index then index[key] else []
  }

  function AddTo(index: Index, key: Key, c: Candidate): Index {
    index[key := Lookup(index, key) + [c]]
  }

  lemma {:induction false} FilterAppend(cs: seq<Candidate>, c: Candidate, test: Test)
    ensures Filter(cs + [c], test) == Filter(cs, test) + if test.Holds(c) then [c] else []
  {
    if cs == [] {
      assert cs + [c] == [c];
    } else {
      assert (cs + [c])[1..] == cs[1..] + [c];
      FilterAppend(cs[1..], c, test);
    }
  }

  /** Each index answers every lookup with the candidates a scan would find. */
  ghost predicate Indexes(candidates: seq<Candidate>, byPath: Index, byBaseName: Index, byHash: Index) {
    && (forall key :: Lookup(byPath, key) == ByPath(candidates, key))
    && (forall key :: Lookup(byBaseName, key) == ByBaseName(candidates, key))
    && (forall key :: Lookup(byHash, key) == ByHash(candidates, key))
  }

  lemma LookupAfter(index: Index, at: Key, c: Candidate, key: Key)
    ensures Lookup(AddTo(index, at, c), key) == Lookup(index, key) + if key == at then [c] else []
  {
    assert Lookup(index, key) + [] == Lookup(index, key);
  }

  lemma IndexStep(done: seq<Candidate>, c: Candidate, byPath: Index, byBaseName: Index, byHash: Index)
    requires Indexes(done, byPath, byBaseName, byHash)
    ensures Indexes(done + [c], AddTo(byPath, c.canonicalPath, c), AddTo(byBaseName, c.baseName, c),
                    if c.sha256.Some? then AddTo(byHash, c.sha256.value, c) else byHash)
  {
    hide Lookup, AddTo, Filter;
    var byHash' := if c.sha256.Some? then AddTo(byHash, c.sha256.value, c) else byHash;
    forall key ensures Lookup(AddTo(byPath, c.canonicalPath, c), key) == ByPath(done + [c], key) {
      LookupAfter(byPath, c.canonicalPath, c, key);
      FilterAppend(done, c, PathIs(key));
    }
    forall key ensures Lookup(AddTo(byBaseName, c.baseName, c), key) == ByBaseName(done + [c], key) {
      LookupAfter(byBaseName, c.baseName, c, key);
      FilterAppend(done, c, BaseNameIs(key));
    }
    forall key ensures Lookup(byHash', key) == ByHash(done + [c], key) {
      FilterAppend(done, c, HashIs(key));
      if c.sha256.Some? {
        LookupAfter(byHash, c.sha256.value, c, key);
      } else {
        assert ByHash(done, key) + [] == ByHash(done, key);
      }
    }
  }

  method BuildIndices(candidates: seq<Candidate>) returns (byPath: Index, byBaseName: Index, byHash: Index)
    ensures Indexes(candidates, byPath, byBaseName, byHash)
  {
    hide Indexes, AddTo;
    byPath, byBaseName, byHash := map[], map[], map[];
    assert Indexes(candidates[..0], byPath, byBaseName, byHash) by {
      NoIndex();
    }
    for k := 0 to |candidates|
      invariant Indexes(candidates[..k], byPath, byBaseName, byHash)
    {
      var c := candidates[k];
      IndexStep(candidates[..k], c, byPath, byBaseName, byHash);
      assert candidates[..k + 1] == candidates[..k] + [c];
      byPath := AddTo(byPath, c.canonicalPath, c);
      byBaseName := AddTo(byBaseName, c.baseName, c);
      if c.sha256.Some? {
        byHash := AddTo(byHash, c.sha256.value, c);
      }
    }
    assert candidates[..|candidates|] == candidates;
  }

  lemma NoIndex()
    ensures Indexes([], map[], map[], map[])
  {
  }

  function MatchCandidates(entry: Entry, byPath: Index, byBaseName: Index, byHash: Index, excluded: set<Key>): Matched {
    Decide(Lookup(byPath, entry.canonicalPath), Lookup(byHash, entry.sha256),
           Lookup(byBaseName, entry.baseName), entry.sha256, excluded)
  }

  /** Looking up in the indices finds the same match as scanning. */
  lemma IndexedMatchIsScan(candidates: seq<Candidate>, entry: Entry, byPath: Index, byBaseName: Index, byHash: Index,
                           reserved: set<Key>)
    requires Indexes(candidates, byPath, byBaseName, byHash)
    ensures MatchCandidates(entry, byPath, byBaseName, byHash, reserved) == Match(candidates, entry, reserved)
  {
    hide Decide, Lookup, ByPath, ByBaseName, ByHash;
  }

  // ----- the first reading of the archive -----

  function Files(entries: seq<Entry>): seq<Entry> {
    if entries == [] then []
    else Files(entries[..|entries| - 1]) + if entries[|entries| - 1].isDirectory then [] else [entries[|entries| - 1]]
  }

  function DeclaredBytes(files: seq<Entry>): int {
    if files == [] then 0 else DeclaredBytes(files[..|files| - 1]) + files[|files| - 1].uncompressedSize
  }

  predicate AcceptableFile(e: Entry) {
    e.uncompressedSize >= 0 && !e.unsafe
  }

  predicate AcceptableArchive(entries: seq<Entry>, limits: Limits) {
    var files := Files(entries);
    && 1 <= |files| <= limits.maximumEntries
    && DeclaredBytes(files) <= limits.maximumUncompressedBytes
    && forall i | 0 <= i < |files| :: AcceptableFile(files[i])
  }

  /** The names of the files in the archive. */
  datatype Names = Names(paths: set<Key>, baseNames: set<Key>)

  function NamesOf(files: seq<Entry>): Names {
    Names(set e | e in files :: e.canonicalPath, set e | e in files :: e.baseName)
  }

  /** The candidates that only a digest can find: no file of the archive has their path or base name. */
  function OnlyByHash(candidates: seq<Candidate>, names: Names): set<Key> {
    set c | c in candidates && c.sha256.Some? && c.canonicalPath !in names.paths && c.baseName !in names.baseNames :: c.id
  }

  // ----- the second reading -----

  datatype Progress = Progress(reserved: set<Key>, fallback: set<Key>, jobs: seq<Job>,
                               ambiguous: nat, skippedOversize: nat, filesScanned: nat)

  function IdsOf(cs: seq<Candidate>): set<Key> {
    set c | c in cs :: c.id
  }

  predicate HasFree(cs: seq<Candidate>, reserved: set<Key>) {
    exists i | 0 <= i < |cs| :: cs[i].id !in reserved
  }

  predicate IsSkipped(candidates: seq<Candidate>, entry: Entry, p: Progress) {
    !HasFree(ByPath(candidates, entry.canonicalPath), p.reserved) &&
    !HasFree(ByBaseName(candidates, entry.baseName), p.reserved) && p.fallback == {}
  }

  /** One entry of the second reading. */
  function Process(candidates: seq<Candidate>, limits: Limits, p: Progress, entry: Entry): Progress {
    if entry.isDirectory then p
    else
      var q := p.(filesScanned := p.filesScanned + 1);
      if entry.uncompressedSize < 1 || entry.uncompressedSize > limits.maximumFileBytes then
        q.(skippedOversize := p.skippedOversize + 1)
      else if IsSkipped(candidates, entry, p) || entry.length < 1 then q
      else
        var m := Match(candidates, entry, p.reserved);
        var r := q.(ambiguous := p.ambiguous + if m.ambiguous then 1 else 0);
        if m.candidates == [] then r
        else r.(reserved := p.reserved + IdsOf(m.candidates), fallback := p.fallback - IdsOf(m.candidates),
                jobs := p.jobs + [Job(m.candidates, entry.sha256, entry.length)])
  }

  function ProcessAll(candidates: seq<Candidate>, limits: Limits, names: Names, entries: seq<Entry>): Progress {
    if entries == [] then Progress({}, OnlyByHash(candidates, names), [], 0, 0, 0)
    else Process(candidates, limits, ProcessAll(candidates, limits, names, entries[..|entries| - 1]),
                 entries[|entries| - 1])
  }

  // ----- reservation -----

  /** All candidates of all jobs, in order. */
  function AllCandidates(jobs: seq<Job>): seq<Candidate> {
    if jobs == [] then [] else AllCandidates(jobs[..|jobs| - 1]) + jobs[|jobs| - 1].candidates
  }

  ghost predicate Reserved(candidates: seq<Candidate>, names: Names, p: Progress) {
    && DistinctIds(AllCandidates(p.jobs))
    && p.reserved == IdsOf(AllCandidates(p.jobs))
    && (forall c | c in AllCandidates(p.jobs) :: c in candidates)
    && p.fallback == OnlyByHash(candidates, names) - p.reserved
  }

  lemma DistinctConcat(a: seq<Candidate>, b: seq<Candidate>)
    requires DistinctIds(a) && DistinctIds(b) && forall c | c in b :: c.id !in IdsOf(a)
    ensures DistinctIds(a + b) && IdsOf(a + b) == IdsOf(a) + IdsOf(b)
  {
    forall i, j | 0 <= i < j < |a + b| ensures (a + b)[i].id != (a + b)[j].id {
      if i < |a| <= j {
        assert a[i].id in IdsOf(a) && b[j - |a|] in b;
      }
    }
  }

  lemma ProcessReserves(candidates: seq<Candidate>, limits: Limits, names: Names, p: Progress, entry: Entry)
    requires Reserved(candidates, names, p)
    ensures Reserved(candidates, names, Process(candidates, limits, p, entry))
  {
    hide Match, IsSkipped, OnlyByHash, DistinctIds;
    var m := Match(candidates, entry, p.reserved).candidates;
    MatchedAreFree(candidates, entry, p.reserved);
    DistinctConcat(AllCandidates(p.jobs), m);
    var jobs := p.jobs + [Job(m, entry.sha256, entry.length)];
    assert jobs[..|jobs| - 1] == p.jobs;
  }

  /** Over the whole archive a candidate is stored by at most one job, and only once in it. */
  lemma {:induction false} EachCandidateOnce(candidates: seq<Candidate>, limits: Limits, names: Names, entries: seq<Entry>)
    ensures Reserved(candidates, names, ProcessAll(candidates, limits, names, entries))
  {
    hide Process;
    if entries != [] {
      EachCandidateOnce(candidates, limits, names, entries[..|entries| - 1]);
      ProcessReserves(candidates, limits, names, ProcessAll(candidates, limits, names, entries[..|entries| - 1]),
                      entries[|entries| - 1]);
    } else {
      NothingReserved(candidates, names);
    }
  }

  lemma NothingReserved(candidates: seq<Candidate>, names: Names)
    ensures Reserved(candidates, names, Progress({}, OnlyByHash(candidates, names), [], 0, 0, 0))
  {
  }

  /** What the early skip can lose: only candidates found by their digest whose own path or base name
      belongs to another file of the archive. */
  lemma SkipLosesOnlyNamedElsewhere(candidates: seq<Candidate>, names: Names, p: Progress, entry: Entry, c: Candidate)
    requires Reserved(candidates, names, p) && IsSkipped(candidates, entry, p)
    requires c in Match(candidates, entry, p.reserved).candidates
    ensures c.sha256 == Some(entry.sha256) && (c.canonicalPath in names.paths || c.baseName in names.baseNames)
  {
    hide Filter, HasFree, Unique, DistinctIds, AllCandidates;
    var paths, hashes := ByPath(candidates, entry.canonicalPath), ByHash(candidates, entry.sha256);
    var bases := ByBaseName(candidates, entry.baseName);
    var exact := Filter(paths, IsFreeAndAgrees(p.reserved, entry.sha256));
    var hashed := Filter(hashes, IsFree(p.reserved));
    var fallback := Filter(bases, IsFreeAndAgrees(p.reserved, entry.sha256));
    NoneFree(paths, p.reserved, exact);
    NoneFree(bases, p.reserved, fallback);
    assert exact + hashed == hashed;
    assert c in hashed && c.id !in p.reserved;
    assert c.id in OnlyByHash(candidates, names) ==> c.id in OnlyByHash(candidates, names) - p.reserved;
    NotOnlyByHash(candidates, names, c);
  }

  lemma NotOnlyByHash(candidates: seq<Candidate>, names: Names, c: Candidate)
    requires c in candidates && c.id !in OnlyByHash(candidates, names)
    ensures c.sha256.None? || c.canonicalPath in names.paths || c.baseName in names.baseNames
  {
  }

  lemma NoneFree(cs: seq<Candidate>, reserved: set<Key>, picked: seq<Candidate>)
    requires forall c | c in picked :: c in cs && c.id !in reserved
    ensures picked == [] || HasFree(cs, reserved)
  {
    if picked != [] {
      assert picked[0] in picked;
      var i :| 0 <= i < |cs| && cs[i] == picked[0];
    }
  }

  // ----- batches -----

  function Bytes(jobs: seq<Job>): nat {
    if jobs == [] then 0 else Bytes(jobs[..|jobs| - 1]) + jobs[|jobs| - 1].length
  }

  function Concat(batches: seq<seq<Job>>): seq<Job> {
    if batches == [] then [] else Concat(batches[..|batches| - 1]) + batches[|batches| - 1]
  }

  /** A batch holds at most the configured number of jobs and bytes. */
  predicate WithinLimits(batch: seq<Job>, limits: Limits) {
    1 <= |batch| <= limits.concurrency && Bytes(batch) <= limits.maximumFileBytes
  }

  /** The results of storing a batch: one for each job's candidate, as the storage decides. */
  function Stored(jobs: seq<Job>, stores: (Key, Key) -> bool): nat {
    if jobs == [] then 0
    else Stored(jobs[..|jobs| - 1], stores) + StoredOf(jobs[|jobs| - 1].candidates, jobs[|jobs| - 1].sha256, stores)
  }

  function StoredOf(cs: seq<Candidate>, sha256: Key, stores: (Key, Key) -> bool): nat {
    if cs == [] then 0
    else StoredOf(cs[..|cs| - 1], sha256, stores) + if stores(cs[|cs| - 1].id, sha256) then 1 else 0
  }

  lemma {:induction false} StoredConcat(a: seq<Job>, b: seq<Job>, stores: (Key, Key) -> bool)
    ensures Stored(a + b, stores) == Stored(a, stores) + Stored(b, stores)
  {
    if b == [] {
      assert a + b == a;
    } else {
      assert (a + b)[..|a + b| - 1] == a + b[..|b| - 1];
      StoredConcat(a, b[..|b| - 1], stores);
    }
  }

  lemma {:induction false} StoredAtMost(jobs: seq<Job>, stores: (Key, Key) -> bool)
    ensures Stored(jobs, stores) <= |AllCandidates(jobs)|
  {
    if jobs != [] {
      StoredAtMost(jobs[..|jobs| - 1], stores);
      StoredOfAtMost(jobs[|jobs| - 1].candidates, jobs[|jobs| - 1].sha256, stores);
    }
  }

  lemma {:induction false} StoredOfAtMost(cs: seq<Candidate>, sha256: Key, stores: (Key, Key) -> bool)
    ensures StoredOf(cs, sha256, stores) <= |cs|
  {
    if cs != [] {
      StoredOfAtMost(cs[..|cs| - 1], sha256, stores);
    }
  }

  lemma {:induction false} DistinctSize(cs: seq<Candidate>)
    requires DistinctIds(cs)
    ensures |IdsOf(cs)| == |cs|
  {
    if cs != [] {
      var last := |cs| - 1;
      DistinctSize(cs[..last]);
      assert cs == cs[..last] + [cs[last]];
      assert IdsOf(cs) == IdsOf(cs[..last]) + {cs[last].id};
      assert cs[last].id !in IdsOf(cs[..last]);
    } else {
      assert IdsOf(cs) == {};
    }
  }

  lemma SubsetSize(a: set<Key>, b: set<Key>)
    requires a <= b
    ensures |a| <= |b|
  {
    assert b == a + (b - a);
  }

  lemma {:induction false} IdsAtMost(cs: seq<Candidate>)
    ensures |IdsOf(cs)| <= |cs|
  {
    if cs == [] {
      assert IdsOf(cs) == {};
    } else {
      var last := |cs| - 1;
      IdsAtMost(cs[..last]);
      assert cs == cs[..last] + [cs[last]];
      assert IdsOf(cs) == IdsOf(cs[..last]) + {cs[last].id};
    }
  }

  /** No more is ever attached than there were candidates, so the number missing is exact. */
  lemma AttachedAtMost(candidates: seq<Candidate>, limits: Limits, names: Names, entries: seq<Entry>,
                       stores: (Key, Key) -> bool)
    ensures Stored(ProcessAll(candidates, limits, names, entries).jobs, stores) <= |candidates|
  {
    hide ProcessAll, OnlyByHash;
    var jobs := ProcessAll(candidates, limits, names, entries).jobs;
    EachCandidateOnce(candidates, limits, names, entries);
    StoredAtMost(jobs, stores);
    DistinctSize(AllCandidates(jobs));
    SubsetSize(IdsOf(AllCandidates(jobs)), IdsOf(candidates));
    IdsAtMost(candidates);
  }

  // ----- the loops -----

  datatype Report = Report(candidates: nat, filesScanned: nat, attached: nat, missing: int, ambiguous: nat,
                           skippedOversize: nat)

  /** The first reading: what it collects, or the error it throws. */
  method ScanArchive(entries: seq<Entry>, limits: Limits) returns (r: Result<Names>)
    ensures r == if AcceptableArchive(entries, limits) then Ok(NamesOf(Files(entries))) else Err(ValidationError)
  {
    var filesTotal, declared := 0, 0;
    var paths: set<Key>, baseNames: set<Key> := {}, {};
    for k := 0 to |entries|
      invariant filesTotal == |Files(entries[..k])| <= limits.maximumEntries
      invariant declared == DeclaredBytes(Files(entries[..k])) <= limits.maximumUncompressedBytes
      invariant forall e | e in Files(entries[..k]) :: AcceptableFile(e)
      invariant Names(paths, baseNames) == NamesOf(Files(entries[..k]))
    {
      hide NamesOf, AcceptableArchive, Files, DeclaredBytes;
      var entry := entries[k];
      if entry.isDirectory {
        DirectoryStep(entries, k);
      } else {
        FilesStep(entries, k);
        filesTotal := filesTotal + 1;
        declared := declared + entry.uncompressedSize;
        if filesTotal > limits.maximumEntries || entry.uncompressedSize < 0 ||
           declared > limits.maximumUncompressedBytes || entry.unsafe {
          RefusedEarly(entries, k, limits);
          return Err(ValidationError);
        }
        paths := paths + {entry.canonicalPath};
        baseNames := baseNames + {entry.baseName};
      }
    }
    assert entries[..|entries|] == entries;
    if filesTotal < 1 {
      return Err(ValidationError);
    }
    return Ok(Names(paths, baseNames));
  }

  lemma DirectoryStep(entries: seq<Entry>, k: nat)
    requires k < |entries| && entries[k].isDirectory
    ensures Files(entries[..k + 1]) == Files(entries[..k])
  {
    assert entries[..k + 1][..k] == entries[..k];
    assert Files(entries[..k]) + [] == Files(entries[..k]);
  }

  lemma FilesStep(entries: seq<Entry>, k: nat)
    requires k < |entries| && !entries[k].isDirectory
    ensures Files(entries[..k + 1]) == Files(entries[..k]) + [entries[k]]
    ensures DeclaredBytes(Files(entries[..k + 1])) == DeclaredBytes(Files(entries[..k])) + entries[k].uncompressedSize
    ensures NamesOf(Files(entries[..k + 1])) ==
            var names := NamesOf(Files(entries[..k]));
            Names(names.paths + {entries[k].canonicalPath}, names.baseNames + {entries[k].baseName})
  {
    assert entries[..k + 1][..k] == entries[..k];
    var before, after := Files(entries[..k]), Files(entries[..k + 1]);
    assert after == before + [entries[k]];
    assert after[..|after| - 1] == before;
    assert forall e :: e in after <==> e in before || e == entries[k];
  }

  /** A prefix that breaks a limit refuses the archive, whatever follows: the sizes checked so far are
      not negative. */
  lemma RefusedEarly(entries: seq<Entry>, k: nat, limits: Limits)
    requires k < |entries| && !entries[k].isDirectory
    requires forall e | e in Files(entries[..k]) :: AcceptableFile(e)
    requires var files := Files(entries[..k + 1]);
             |files| > limits.maximumEntries || DeclaredBytes(files) > limits.maximumUncompressedBytes ||
             !AcceptableFile(entries[k])
    ensures !AcceptableArchive(entries, limits)
  {
    var files := Files(entries);
    FilesStep(entries, k);
    FilesGrow(entries, k + 1);
    var part := Files(entries[..k + 1]);
    assert entries[k] in part;
    if AcceptableArchive(entries, limits) {
      assert part == files[..|part|];
      assert part[|part| - 1] == files[|part| - 1];
      DeclaredGrow(files, |part|);
    }
  }

  lemma {:induction false} FilesGrow(entries: seq<Entry>, k: nat)
    requires k <= |entries|
    ensures var part, files := Files(entries[..k]), Files(entries); |part| <= |files| && part == files[..|part|]
  {
    if k < |entries| {
      var last := |entries| - 1;
      FilesGrow(entries[..last], k);
      assert entries[..last][..k] == entries[..k];
    } else {
      assert entries[..k] == entries;
    }
  }

  lemma {:induction false} DeclaredGrow(files: seq<Entry>, n: nat)
    requires n <= |files| && forall i | 0 <= i < |files| :: files[i].uncompressedSize >= 0
    ensures DeclaredBytes(files[..n]) <= DeclaredBytes(files)
  {
    if n < |files| {
      DeclaredGrow(files[..|files| - 1], n);
      assert files[..|files| - 1][..n] == files[..n];
    } else {
      assert files[..n] == files;
    }
  }

  /** What the batching keeps while jobs are queued: nothing lost, nothing twice, limits respected. */
  ghost predicate Batched(jobs: seq<Job>, batches: seq<seq<Job>>, batch: seq<Job>, batchBytes: nat, limits: Limits) {
    && Concat(batches) + batch == jobs
    && batchBytes == Bytes(batch)
    && (forall i | 0 <= i < |batches| :: WithinLimits(batches[i], limits))
    && (batch != [] ==> WithinLimits(batch, limits))
  }

  lemma FlushBatch(jobs: seq<Job>, batches: seq<seq<Job>>, batch: seq<Job>, batchBytes: nat, limits: Limits)
    requires Batched(jobs, batches, batch, batchBytes, limits) && batch != []
    ensures Batched(jobs, batches + [batch], [], 0, limits)
  {
    hide WithinLimits;
    assert (batches + [batch])[..|batches|] == batches;
    assert Concat(batches + [batch]) == Concat(batches) + batch;
  }

  lemma PushJob(jobs: seq<Job>, batches: seq<seq<Job>>, batch: seq<Job>, batchBytes: nat, limits: Limits, job: Job)
    requires Batched(jobs, batches, batch, batchBytes, limits) && limits.Positive()
    requires job.length <= limits.maximumFileBytes
    requires batch != [] ==> |batch| < limits.concurrency && batchBytes + job.length <= limits.maximumFileBytes
    ensures Batched(jobs + [job], batches, batch + [job], batchBytes + job.length, limits)
  {
    assert (batch + [job])[..|batch|] == batch;
    assert Bytes(batch + [job]) == Bytes(batch) + job.length;
    assert Concat(batches) + (batch + [job]) == Concat(batches) + batch + [job];
  }

  /** Entries are as long as the archive declares; the ZIP reader refuses any other. */
  predicate SizesAsDeclared(entries: seq<Entry>) {
    forall i | 0 <= i < |entries| :: entries[i].length == entries[i].uncompressedSize
  }

  /** What one run of `attachArchive` did. */
  ghost predicate AttachedAll(candidates: seq<Candidate>, entries: seq<Entry>, limits: Limits,
                              stores: (Key, Key) -> bool, batches: seq<seq<Job>>, report: Report) {
    var p := ProcessAll(candidates, limits, NamesOf(Files(entries)), entries);
    && Concat(batches) == p.jobs
    && (forall i | 0 <= i < |batches| :: WithinLimits(batches[i], limits))
    && report == Report(|candidates|, p.filesScanned, Stored(p.jobs, stores), |candidates| - Stored(p.jobs, stores),
                        p.ambiguous, p.skippedOversize)
  }

  /** The whole run, on an archive without read errors: every matched file is in exactly one batch, in
      order, and each batch is within the limits. `stores` says whether storing succeeds. */
  method AttachArchive(candidates: seq<Candidate>, entries: seq<Entry>, limits: Limits, stores: (Key, Key) -> bool)
    returns (r: Result<Report>, batches: seq<seq<Job>>)
    requires limits.Positive() && SizesAsDeclared(entries)
    ensures r.Err? <==> !AcceptableArchive(entries, limits)
    ensures r.Ok? ==> AttachedAll(candidates, entries, limits, stores, batches, r.value)
  {
    hide AcceptableArchive, NamesOf, Indexes, Batched, OnlyByHash, Process, AttachedAll, Stored, Files, Concat;
    batches := [];
    var scanned := ScanArchive(entries, limits);
    if scanned.Err? {
      return Err(ValidationError), [];
    }
    var names := scanned.value;
    var byPath, byBaseName, byHash := BuildIndices(candidates);
    var p := Progress({}, OnlyByHash(candidates, names), [], 0, 0, 0);
    var batch: seq<Job>, batchBytes: nat, attached: nat := [], 0, 0;
    StartBatching(limits, stores);
    for k := 0 to |entries|
      invariant p == ProcessAll(candidates, limits, names, entries[..k])
      invariant Batched(p.jobs, batches, batch, batchBytes, limits)
      invariant attached == Stored(Concat(batches), stores)
    {
      hide ProcessAll;
      var entry := entries[k];
      ProcessStep(candidates, limits, names, entries, k);
      var before := p;
      p := ProcessEntry(candidates, limits, p, entry, byPath, byBaseName, byHash);
      ghost var jobs := before.jobs;
      if |p.jobs| > |before.jobs| {
        NewJob(candidates, limits, before, entry);
        if batch != [] && (|batch| >= limits.concurrency || batchBytes + entry.uncompressedSize > limits.maximumFileBytes) {
          FlushBatch(jobs, batches, batch, batchBytes, limits);
          StoredBatch(batches, batch, stores);
          attached := attached + Stored(batch, stores);
          batches, batch, batchBytes := batches + [batch], [], 0;
        }
        var job := p.jobs[|before.jobs|];
        PushJob(jobs, batches, batch, batchBytes, limits, job);
        batch, batchBytes := batch + [job], batchBytes + job.length;
      } else {
        NewJob(candidates, limits, before, entry);
      }
    }
    assert entries[..|entries|] == entries;
    if batch != [] {
      FlushBatch(p.jobs, batches, batch, batchBytes, limits);
      StoredBatch(batches, batch, stores);
      attached := attached + Stored(batch, stores);
      batches, batch, batchBytes := batches + [batch], [], 0;
    }
    var missing := if |candidates| - attached > 0 then |candidates| - attached else 0;
    AllBatched(p.jobs, batches, batchBytes, limits);
    AttachedAtMost(candidates, limits, names, entries, stores);
    var report := Report(|candidates|, p.filesScanned, attached, missing, p.ambiguous, p.skippedOversize);
    assert AttachedAll(candidates, entries, limits, stores, batches, report) by {
      Attached(candidates, entries, limits, stores, batches, report);
    }
    r := Ok(report);
  }

  lemma Attached(candidates: seq<Candidate>, entries: seq<Entry>, limits: Limits,
                 stores: (Key, Key) -> bool, batches: seq<seq<Job>>, report: Report)
    requires var p := ProcessAll(candidates, limits, NamesOf(Files(entries)), entries);
             Concat(batches) == p.jobs && (forall i | 0 <= i < |batches| :: WithinLimits(batches[i], limits)) &&
             report == Report(|candidates|, p.filesScanned, Stored(p.jobs, stores),
                              |candidates| - Stored(p.jobs, stores), p.ambiguous, p.skippedOversize)
    ensures AttachedAll(candidates, entries, limits, stores, batches, report)
  {
    hide ProcessAll, NamesOf, WithinLimits;
  }

  lemma StartBatching(limits: Limits, stores: (Key, Key) -> bool)
    ensures Batched([], [], [], 0, limits) && Stored(Concat([]), stores) == 0
  {
  }

  lemma AllBatched(jobs: seq<Job>, batches: seq<seq<Job>>, batchBytes: nat, limits: Limits)
    requires Batched(jobs, batches, [], batchBytes, limits)
    ensures Concat(batches) == jobs && forall i | 0 <= i < |batches| :: WithinLimits(batches[i], limits)
  {
    hide WithinLimits;
    assert Concat(batches) + [] == Concat(batches);
  }

  lemma StoredBatch(batches: seq<seq<Job>>, batch: seq<Job>, stores: (Key, Key) -> bool)
    ensures Stored(Concat(batches + [batch]), stores) == Stored(Concat(batches), stores) + Stored(batch, stores)
  {
    hide Stored;
    assert (batches + [batch])[..|batches|] == batches;
    StoredConcat(Concat(batches), batch, stores);
  }

  lemma ProcessStep(candidates: seq<Candidate>, limits: Limits, names: Names, entries: seq<Entry>, k: nat)
    requires k < |entries|
    ensures ProcessAll(candidates, limits, names, entries[..k + 1]) ==
            Process(candidates, limits, ProcessAll(candidates, limits, names, entries[..k]), entries[k])
  {
    hide Process;
    assert entries[..k + 1][..k] == entries[..k];
  }

  /** An entry queues at most one job, and never one longer than a file may be. */
  lemma NewJob(candidates: seq<Candidate>, limits: Limits, p: Progress, entry: Entry)
    requires entry.length == entry.uncompressedSize
    ensures var q := Process(candidates, limits, p, entry);
            q.jobs == p.jobs ||
            (|q.jobs| == |p.jobs| + 1 && q.jobs == p.jobs + [q.jobs[|p.jobs|]] &&
             q.jobs[|p.jobs|].length == entry.length <= limits.maximumFileBytes)
  {
    hide Match, IsSkipped;
  }

  /** The body of the loop, through the indices. */
  method ProcessEntry(candidates: seq<Candidate>, limits: Limits, p: Progress, entry: Entry,
                      byPath: Index, byBaseName: Index, byHash: Index) returns (q: Progress)
    requires Indexes(candidates, byPath, byBaseName, byHash)
    ensures q == Process(candidates, limits, p, entry)
  {
    hide Indexes, Match, MatchCandidates, Lookup, IdsOf, HasFree;
    q := p;
    if entry.isDirectory {
      return;
    }
    q := q.(filesScanned := q.filesScanned + 1);
    if entry.uncompressedSize < 1 || entry.uncompressedSize > limits.maximumFileBytes {
      q := q.(skippedOversize := q.skippedOversize + 1);
      return;
    }
    LookupsAgree(candidates, entry, byPath, byBaseName, byHash);
    var hasPathCandidate := HasFree(Lookup(byPath, entry.canonicalPath), p.reserved);
    var hasNameCandidate := HasFree(Lookup(byBaseName, entry.baseName), p.reserved);
    if !hasPathCandidate && !hasNameCandidate && p.fallback == {} {
      return;
    }
    if entry.length < 1 {
      return;
    }
    var matched := MatchCandidates(entry, byPath, byBaseName, byHash, p.reserved);
    IndexedMatchIsScan(candidates, entry, byPath, byBaseName, byHash, p.reserved);
    if matched.ambiguous {
      q := q.(ambiguous := q.ambiguous + 1);
    }
    if matched.candidates == [] {
      return;
    }
    q := q.(reserved := q.reserved + IdsOf(matched.candidates), fallback := q.fallback - IdsOf(matched.candidates),
            jobs := q.jobs + [Job(matched.candidates, entry.sha256, entry.length)]);
  }

  lemma LookupsAgree(candidates: seq<Candidate>, entry: Entry, byPath: Index, byBaseName: Index, byHash: Index)
    requires Indexes(candidates, byPath, byBaseName, byHash)
    ensures Lookup(byPath, entry.canonicalPath) == ByPath(candidates, entry.canonicalPath)
    ensures Lookup(byBaseName, entry.baseName) == ByBaseName(candidates, entry.baseName)
  {
    hide Lookup, ByPath, ByBaseName, ByHash;
  }
}
