/** Planning of database migrations from the history found in the database. The embedded catalog is
    generalised to any catalog whose versions are distinct. */
module SchemaPlan {
  import opened Common

  datatype Mode = Transactional | Autocommit

  datatype Migration = Migration(version: string, sql: string, mode: Mode)

  /** A row of the migration history. */
  datatype Applied = Applied(version: string, checksum: string)

  datatype PlanError =
    | UnknownVersion(version: string)
    | ChecksumDrift(version: string)
    | Gap(version: string)
    | DuplicateVersion(version: string)

  /** `Migration::checksum_hex`; `digest` is hexadecimal SHA-256. */
  function RowOf(m: Migration, digest: string -> string): Applied {
    Applied(m.version, digest(m.sql))
  }

  function Rows(ms: seq<Migration>, digest: string -> string): (rows: seq<Applied>)
    ensures |rows| == |ms|
    ensures forall i :: 0 <= i < |ms| ==> rows[i] == RowOf(ms[i], digest)
  {
    seq(|ms|, i requires 0 <= i < |ms| => RowOf(ms[i], digest))
  }

  predicate DistinctVersions(catalog: seq<Migration>) {
    forall i, j :: 0 <= i < j < |catalog| ==> catalog[i].version != catalog[j].version
  }

  /** The history is a reordering of the first rows of the catalog. */
  predicate PermutesPrefix(catalog: seq<Migration>, applied: seq<Applied>, digest: string -> string) {
    |applied| <= |catalog| && multiset(applied) == multiset(Rows(catalog[..|applied|], digest))
  }

  /** The index of a version in the catalog, or its length. */
  function Find(catalog: seq<Migration>, version: string): (i: nat)
    ensures i <= |catalog|
    ensures i < |catalog| ==> catalog[i].version == version
    ensures i == |catalog| ==> forall m :: m in catalog ==> m.version != version
  {
    if catalog == [] || catalog[0].version == version then 0 else 1 + Find(catalog[1..], version)
  }

  ghost function Versions(rows: seq<Applied>): set<string> {
    set r | r in rows :: r.version
  }

  /** A row that repeats no version of the rows before it and matches the catalog. */
  predicate RowAccepted(catalog: seq<Migration>, applied: seq<Applied>, i: nat, digest: string -> string)
    requires i < |applied|
  {
    && (forall j :: 0 <= j < i ==> applied[j].version != applied[i].version)
    && exists m :: m in catalog && RowOf(m, digest) == applied[i]
  }

  predicate RowsAccepted(catalog: seq<Migration>, applied: seq<Applied>, n: nat, digest: string -> string)
    requires n <= |applied|
  {
    forall i :: 0 <= i < n ==> RowAccepted(catalog, applied, i, digest)
  }

  /** The error that the first bad row deserves. */
  predicate FirstFault(catalog: seq<Migration>, applied: seq<Applied>, digest: string -> string, e: PlanError) {
    exists i :: 0 <= i < |applied| && RowsAccepted(catalog, applied, i, digest) && FaultOf(catalog, applied, i, digest, e)
  }

  predicate FaultOf(catalog: seq<Migration>, applied: seq<Applied>, i: nat, digest: string -> string, e: PlanError)
    requires i < |applied|
  {
    && e.version == applied[i].version
    && match e
       case DuplicateVersion(v) => exists j :: 0 <= j < i && applied[j].version == v
       case UnknownVersion(v) =>
         (forall j :: 0 <= j < i ==> applied[j].version != v) && forall m :: m in catalog ==> m.version != v
       case ChecksumDrift(v) =>
         && (forall j :: 0 <= j < i ==> applied[j].version != v)
         && exists m :: m in catalog && m.version == v && digest(m.sql) != applied[i].checksum
       case Gap(_) => false
  }

  /** The first catalog entry among the first |applied| that the history lacks. */
  ghost predicate FirstGap(catalog: seq<Migration>, applied: seq<Applied>, v: string) {
    exists k :: 0 <= k < |catalog| && k < |applied| && catalog[k].version == v && v !in Versions(applied)
                && forall j :: 0 <= j < k ==> catalog[j].version in Versions(applied)
  }

  /** `plan_schema`: accepts exactly the reorderings of a catalog prefix, plans exactly the rest, and
      otherwise names the first fault. */
  method PlanSchema(catalog: seq<Migration>, applied: seq<Applied>, digest: string -> string)
    returns (r: Result<seq<Migration>, PlanError>)
    requires DistinctVersions(catalog)
    ensures r.Ok? <==> PermutesPrefix(catalog, applied, digest)
    ensures r.Ok? ==> r.value == catalog[|applied|..]
    ensures r.Err? && !r.error.Gap? ==> FirstFault(catalog, applied, digest, r.error)
    ensures r.Err? && r.error.Gap? ==>
              RowsAccepted(catalog, applied, |applied|, digest) && FirstGap(catalog, applied, r.error.version)
  {
    var seen: set<string> := {};
    for i := 0 to |applied|
      invariant seen == Versions(applied[..i])
      invariant RowsAccepted(catalog, applied, i, digest)
    {
      var row := applied[i];
      SeenMeansEarlier(applied, i, row.version);
      if row.version in seen {
        FaultRejects(catalog, applied, i, digest, DuplicateVersion(row.version));
        return Err(DuplicateVersion(row.version));
      }
      SeenGrows(applied, i);
      seen := seen + {row.version};
      var k := Find(catalog, row.version);
      if k == |catalog| {
        FaultRejects(catalog, applied, i, digest, UnknownVersion(row.version));
        return Err(UnknownVersion(row.version));
      }
      if row.checksum != digest(catalog[k].sql) {
        FaultRejects(catalog, applied, i, digest, ChecksumDrift(row.version));
        return Err(ChecksumDrift(row.version));
      }
      assert RowOf(catalog[k], digest) == row;
      assert RowAccepted(catalog, applied, i, digest);
    }
    assert applied[..|applied|] == applied;
    HistoryFits(catalog, applied, digest);
    for k := 0 to |applied|
      invariant forall j :: 0 <= j < k ==> catalog[j].version in seen
    {
      if catalog[k].version !in seen {
        GapRejects(catalog, applied, digest, k);
        return Err(Gap(catalog[k].version));
      }
    }
    AcceptedHistoryPermutes(catalog, applied, digest);
    return Ok(catalog[|applied|..]);
  }

  // ---------------------------------------------------------------- proofs

  lemma SeenMeansEarlier(applied: seq<Applied>, i: nat, v: string)
    requires i <= |applied|
    ensures v in Versions(applied[..i]) <==> exists j :: 0 <= j < i && applied[j].version == v
  {
    if exists j :: 0 <= j < i && applied[j].version == v {
      var j :| 0 <= j < i && applied[j].version == v;
      assert applied[..i][j] == applied[j];
    }
  }

  lemma SeenGrows(applied: seq<Applied>, i: nat)
    requires i < |applied|
    ensures Versions(applied[..i + 1]) == Versions(applied[..i]) + {applied[i].version}
  {
    assert applied[..i + 1] == applied[..i] + [applied[i]];
  }

  lemma FaultRejects(catalog: seq<Migration>, applied: seq<Applied>, i: nat, digest: string -> string, e: PlanError)
    requires DistinctVersions(catalog) && i < |applied| && RowsAccepted(catalog, applied, i, digest)
    requires FaultOf(catalog, applied, i, digest, e)
    ensures FirstFault(catalog, applied, digest, e)
    ensures !PermutesPrefix(catalog, applied, digest)
  {
    assert !RowAccepted(catalog, applied, i, digest);
    if PermutesPrefix(catalog, applied, digest) {
      PrefixRowsAccepted(catalog, applied, digest);
      assert false;
    }
  }

  lemma GapRejects(catalog: seq<Migration>, applied: seq<Applied>, digest: string -> string, k: nat)
    requires k < |applied| && k < |catalog|
    requires catalog[k].version !in Versions(applied)
    requires forall j :: 0 <= j < k ==> catalog[j].version in Versions(applied)
    ensures FirstGap(catalog, applied, catalog[k].version)
    ensures !PermutesPrefix(catalog, applied, digest)
  {
    if PermutesPrefix(catalog, applied, digest) {
      PrefixHasNoGap(catalog, applied, digest, k);
      assert false;
    }
  }

  /** A reordered prefix passes every row check. */
  lemma PrefixRowsAccepted(catalog: seq<Migration>, applied: seq<Applied>, digest: string -> string)
    requires DistinctVersions(catalog) && PermutesPrefix(catalog, applied, digest)
    ensures RowsAccepted(catalog, applied, |applied|, digest)
  {
    var rows := Rows(catalog[..|applied|], digest);
    forall i | 0 <= i < |applied| ensures RowAccepted(catalog, applied, i, digest) {
      var p := IndexOfRow(catalog, applied, digest, i);
      assert RowOf(catalog[p], digest) == applied[i];
      forall j | 0 <= j < i ensures applied[j].version != applied[i].version {
        if applied[j].version == applied[i].version {
          var q := IndexOfRow(catalog, applied, digest, j);
          assert applied[j] == applied[i];
          TwiceInSequence(applied, j, i);
          OnceInDistinct(rows, p);
          assert false;
        }
      }
    }
  }

  lemma IndexOfRow(catalog: seq<Migration>, applied: seq<Applied>, digest: string -> string, i: nat) returns (p: nat)
    requires PermutesPrefix(catalog, applied, digest) && i < |applied|
    ensures p < |applied| && RowOf(catalog[p], digest) == applied[i]
  {
    var rows := Rows(catalog[..|applied|], digest);
    assert applied[i] in multiset(applied);
    assert applied[i] in rows;
    p :| 0 <= p < |rows| && rows[p] == applied[i];
  }

  lemma TwiceInSequence<T>(s: seq<T>, j: nat, i: nat)
    requires j < i < |s| && s[j] == s[i]
    ensures multiset(s)[s[i]] >= 2
  {
    assert s == s[..i] + [s[i]] + s[i + 1..];
    assert s[..i][j] == s[i];
    assert s[i] in multiset(s[..i]);
  }

  lemma OnceInDistinct(rows: seq<Applied>, p: nat)
    requires p < |rows|
    requires forall i, j :: 0 <= i < j < |rows| ==> rows[i].version != rows[j].version
    ensures multiset(rows)[rows[p]] == 1
  {
    assert rows == rows[..p] + [rows[p]] + rows[p + 1..];
    assert rows[p] !in rows[..p] && rows[p] !in rows[p + 1..];
  }

  lemma PrefixHasNoGap(catalog: seq<Migration>, applied: seq<Applied>, digest: string -> string, k: nat)
    requires PermutesPrefix(catalog, applied, digest) && k < |applied|
    ensures catalog[k].version in Versions(applied)
  {
    var rows := Rows(catalog[..|applied|], digest);
    assert rows[k] in multiset(rows);
    assert rows[k] in applied;
  }

  ghost function CatalogVersions(catalog: seq<Migration>): set<string> {
    set m | m in catalog :: m.version
  }

  lemma {:induction false} CatalogVersionsCount(catalog: seq<Migration>)
    requires DistinctVersions(catalog)
    ensures |CatalogVersions(catalog)| == |catalog|
  {
    if catalog != [] {
      var n := |catalog| - 1;
      CatalogVersionsCount(catalog[..n]);
      assert catalog == catalog[..n] + [catalog[n]];
      assert CatalogVersions(catalog) == CatalogVersions(catalog[..n]) + {catalog[n].version};
      assert catalog[n].version !in CatalogVersions(catalog[..n]);
    }
  }

  lemma {:induction false} AppliedVersionsCount(catalog: seq<Migration>, applied: seq<Applied>, n: nat, digest: string -> string)
    requires n <= |applied| && RowsAccepted(catalog, applied, n, digest)
    ensures |Versions(applied[..n])| == n
    ensures Versions(applied[..n]) <= CatalogVersions(catalog)
  {
    if n > 0 {
      AppliedVersionsCount(catalog, applied, n - 1, digest);
      assert RowAccepted(catalog, applied, n - 1, digest);
      SeenMeansEarlier(applied, n - 1, applied[n - 1].version);
      assert applied[..n] == applied[..n - 1] + [applied[n - 1]];
      assert Versions(applied[..n]) == Versions(applied[..n - 1]) + {applied[n - 1].version};
    }
  }

  lemma SubsetSize<T>(a: set<T>, b: set<T>)
    requires a <= b
    ensures |a| <= |b|
    ensures |a| == |b| ==> a == b
  {
    assert b == a + (b - a);
  }

  /** Pigeonhole: an accepted history is no longer than the catalog, so no slice is out of range. */
  lemma HistoryFits(catalog: seq<Migration>, applied: seq<Applied>, digest: string -> string)
    requires DistinctVersions(catalog) && RowsAccepted(catalog, applied, |applied|, digest)
    ensures |applied| <= |catalog|
    ensures |Versions(applied)| == |applied|
  {
    AppliedVersionsCount(catalog, applied, |applied|, digest);
    assert applied[..|applied|] == applied;
    CatalogVersionsCount(catalog);
    SubsetSize(Versions(applied), CatalogVersions(catalog));
  }

  lemma AcceptedHistoryPermutes(catalog: seq<Migration>, applied: seq<Applied>, digest: string -> string)
    requires DistinctVersions(catalog) && RowsAccepted(catalog, applied, |applied|, digest)
    requires |applied| <= |catalog|
    requires forall j :: 0 <= j < |applied| ==> catalog[j].version in Versions(applied)
    ensures PermutesPrefix(catalog, applied, digest)
  {
    var prefix := catalog[..|applied|];
    var rows := Rows(prefix, digest);
    HistoryFits(catalog, applied, digest);
    CatalogVersionsCount(prefix);
    forall v | v in CatalogVersions(prefix) ensures v in Versions(applied) {
      var m :| m in prefix && m.version == v;
      var j :| 0 <= j < |prefix| && prefix[j] == m;
      assert catalog[j].version == v;
    }
    SubsetSize(CatalogVersions(prefix), Versions(applied));
    forall r ensures multiset(applied)[r] == multiset(rows)[r] {
      RowCounts(catalog, applied, digest, r);
    }
    assert multiset(applied) == multiset(rows);
  }

  lemma SameVersionSameRow(catalog: seq<Migration>, applied: seq<Applied>, digest: string -> string, i: nat, p: nat)
    requires DistinctVersions(catalog) && i < |applied| && RowAccepted(catalog, applied, i, digest)
    requires p < |catalog| && catalog[p].version == applied[i].version
    ensures RowOf(catalog[p], digest) == applied[i]
  {
  }

  lemma SameMembers(catalog: seq<Migration>, applied: seq<Applied>, digest: string -> string, r: Applied)
    requires DistinctVersions(catalog) && RowsAccepted(catalog, applied, |applied|, digest)
    requires |applied| <= |catalog| && CatalogVersions(catalog[..|applied|]) == Versions(applied)
    ensures r in applied <==> r in Rows(catalog[..|applied|], digest)
  {
    var prefix := catalog[..|applied|];
    var rows := Rows(prefix, digest);
    if r in applied {
      var i :| 0 <= i < |applied| && applied[i] == r;
      assert r.version in CatalogVersions(prefix);
      var m :| m in prefix && m.version == r.version;
      var p :| 0 <= p < |prefix| && prefix[p] == m;
      SameVersionSameRow(catalog, applied, digest, i, p);
      assert rows[p] == r;
    }
    if r in rows {
      var p :| 0 <= p < |rows| && rows[p] == r;
      assert prefix[p].version in CatalogVersions(prefix);
      var a :| a in applied && a.version == r.version;
      var i :| 0 <= i < |applied| && applied[i] == a;
      SameVersionSameRow(catalog, applied, digest, i, p);
      assert applied[i] == r;
    }
  }

  lemma RowCounts(catalog: seq<Migration>, applied: seq<Applied>, digest: string -> string, r: Applied)
    requires DistinctVersions(catalog) && RowsAccepted(catalog, applied, |applied|, digest)
    requires |applied| <= |catalog| && CatalogVersions(catalog[..|applied|]) == Versions(applied)
    ensures multiset(applied)[r] == multiset(Rows(catalog[..|applied|], digest))[r]
  {
    var rows := Rows(catalog[..|applied|], digest);
    forall i, j | 0 <= i < j < |applied| ensures applied[i].version != applied[j].version {
      assert RowAccepted(catalog, applied, j, digest);
    }
    SameMembers(catalog, applied, digest, r);
    if r in applied {
      var i :| 0 <= i < |applied| && applied[i] == r;
      var p :| 0 <= p < |rows| && rows[p] == r;
      OnceInDistinct(applied, i);
      OnceInDistinct(rows, p);
    }
  }

  /** Applying any prefix of the plan leaves a history that is accepted again, with exactly the rest
      of the plan still to do, whatever order the rows come back in. */
  lemma PlanStaysAccepted(catalog: seq<Migration>, applied: seq<Applied>, digest: string -> string, k: nat, later: seq<Applied>)
    requires PermutesPrefix(catalog, applied, digest)
    requires |applied| + k <= |catalog|
    requires multiset(later) == multiset(applied + Rows(catalog[|applied|..][..k], digest))
    ensures PermutesPrefix(catalog, later, digest)
    ensures catalog[|later|..] == catalog[|applied|..][k..]
  {
    var n := |applied|;
    assert |later| == |multiset(later)| == n + k;
    var done, next := Rows(catalog[..n], digest), Rows(catalog[n..][..k], digest);
    assert Rows(catalog[..n + k], digest) == done + next;
  }
}
