/** The update check: the tag of the latest release against the running
    version, both read as dot-separated integers and compared part by part,
    a missing part counting as 0. Fetching the release is left to the
    caller, which passes what it received. */
module Updater {
  import opened Wrappers
  import opened Text
  import opened Ordering

  /** The version of the running program. */
  const CurrentVersion: string := "1.0.0"

  /** `[int(x) for x in v.split('.')]`: None for the `ValueError` of a part
      that is not an integer. */
  function ParseVersion(v: string): Option<seq<int>> {
    TryMap(Split(v, '.'), ParseInt)
  }

  /** `v_parts[i] if i < len(v_parts) else 0` */
  function Part(p: seq<int>, i: nat): int {
    if i < |p| then p[i] else 0
  }

  function Max(a: nat, b: nat): nat {
    if a < b then b else a
  }

  /** The loop of `_compare_versions` from index `i` on: the first part that
      differs decides. */
  function CompareFrom(a: seq<int>, b: seq<int>, i: nat): (r: int)
    ensures r == -1 || r == 0 || r == 1
    decreases Max(|a|, |b|) - i
  {
    if i >= Max(|a|, |b|) then 0
    else if Part(a, i) > Part(b, i) then 1
    else if Part(a, i) < Part(b, i) then -1
    else CompareFrom(a, b, i + 1)
  }

  /** `_compare_versions` on parsed versions: 1, 0 or -1 as `a` is newer
      than, equal to or older than `b`. */
  function CompareParts(a: seq<int>, b: seq<int>): (r: int)
    ensures r == -1 || r == 0 || r == 1
  {
    CompareFrom(a, b, 0)
  }

  /** `_compare_versions(v1, v2)`: None when either does not parse. */
  function CompareVersions(v1: string, v2: string): (r: Option<int>)
    ensures r.Some? <==> ParseVersion(v1).Some? && ParseVersion(v2).Some?
    ensures r.Some? ==> r.value == -1 || r.value == 0 || r.value == 1
  {
    match (ParseVersion(v1), ParseVersion(v2))
    case (Some(a), Some(b)) => Some(CompareParts(a, b))
    case _ => None
  }

  // ----------------------------------------------------------- properties

  /** Past both lists every part is 0. */
  lemma PartPast(a: seq<int>, b: seq<int>, i: nat)
    requires i >= Max(|a|, |b|)
    ensures Part(a, i) == 0 && Part(b, i) == 0
  {
  }

  /** Versions whose parts agree from `i` on compare equal from there. */
  lemma {:induction false} SamePartsFrom(a: seq<int>, b: seq<int>, i: nat)
    requires forall j :: i <= j ==> Part(a, j) == Part(b, j)
    ensures CompareFrom(a, b, i) == 0
    decreases Max(|a|, |b|) - i
  {
    if i < Max(|a|, |b|) {
      SamePartsFrom(a, b, i + 1);
    }
  }

  /** Versions compare equal exactly when they agree part by part once
      padded with zeros, so "1.0" and "1.0.0" are the same version. */
  lemma CompareZeroIff(a: seq<int>, b: seq<int>)
    ensures CompareParts(a, b) == 0 <==> forall j :: Part(a, j) == Part(b, j)
  {
    if forall j :: Part(a, j) == Part(b, j) {
      SamePartsFrom(a, b, 0);
    } else {
      var j :| Part(a, j) != Part(b, j);
      var k := FirstDiffering(a, b, j);
      FirstDifference(a, b, k);
    }
  }

  /** The smallest index at or below `j` where the versions differ. */
  lemma {:induction false} FirstDiffering(a: seq<int>, b: seq<int>, j: nat) returns (k: nat)
    requires Part(a, j) != Part(b, j)
    ensures k <= j && Part(a, k) != Part(b, k)
    ensures forall m :: 0 <= m < k ==> Part(a, m) == Part(b, m)
  {
    if forall m :: 0 <= m < j ==> Part(a, m) == Part(b, m) {
      k := j;
    } else {
      var m :| 0 <= m < j && Part(a, m) != Part(b, m);
      k := FirstDiffering(a, b, m);
    }
  }

  lemma {:induction false} FirstDifferenceFrom(a: seq<int>, b: seq<int>, i: nat, k: nat)
    requires i <= k
    requires forall m :: i <= m < k ==> Part(a, m) == Part(b, m)
    requires Part(a, k) != Part(b, k)
    ensures CompareFrom(a, b, i) == if Part(a, k) > Part(b, k) then 1 else -1
    decreases k - i
  {
    if i >= Max(|a|, |b|) {
      PartPast(a, b, k);
    } else if i < k {
      FirstDifferenceFrom(a, b, i + 1, k);
    }
  }

  /** The first part in which the versions differ decides the comparison:
      it is the lexicographic order of the zero-padded part lists. */
  lemma FirstDifference(a: seq<int>, b: seq<int>, k: nat)
    requires forall m :: 0 <= m < k ==> Part(a, m) == Part(b, m)
    requires Part(a, k) != Part(b, k)
    ensures CompareParts(a, b) == if Part(a, k) > Part(b, k) then 1 else -1
  {
    FirstDifferenceFrom(a, b, 0, k);
  }

  /** A version compares equal to itself. */
  lemma CompareReflexive(a: seq<int>)
    ensures CompareParts(a, a) == 0
  {
    SamePartsFrom(a, a, 0);
  }

  /** Swapping the arguments negates the result. */
  lemma {:induction false} CompareAntisymmetric(a: seq<int>, b: seq<int>, i: nat)
    ensures CompareFrom(a, b, i) == -CompareFrom(b, a, i)
    decreases Max(|a|, |b|) - i
  {
    if i < Max(|a|, |b|) && Part(a, i) == Part(b, i) {
      CompareAntisymmetric(a, b, i + 1);
    }
  }

  /** Zeros appended to a version do not change it: "1.0" and "1.0.0" are
      the same version. */
  lemma TrailingZeros(a: seq<int>, k: nat)
    ensures CompareParts(a + seq(k, _ => 0), a) == 0
  {
    var z := a + seq(k, _ => 0);
    forall j: nat ensures Part(z, j) == Part(a, j) {
      if |a| <= j < |z| {
        assert z[j] == 0;
      }
    }
    CompareZeroIff(z, a);
  }

  /** The index at which two different versions first differ. */
  lemma FirstDifferent(a: seq<int>, b: seq<int>) returns (k: nat)
    requires CompareParts(a, b) != 0
    ensures Part(a, k) != Part(b, k) && forall m :: 0 <= m < k ==> Part(a, m) == Part(b, m)
    ensures CompareParts(a, b) == 1 <==> Part(a, k) > Part(b, k)
  {
    CompareZeroIff(a, b);
    var j :| Part(a, j) != Part(b, j);
    k := FirstDiffering(a, b, j);
    FirstDifference(a, b, k);
  }

  /** "Newer than" is transitive. */
  lemma CompareTransitive(a: seq<int>, b: seq<int>, c: seq<int>)
    requires CompareParts(a, b) == 1 && CompareParts(b, c) == 1
    ensures CompareParts(a, c) == 1
  {
    var k1 := FirstDifferent(a, b);
    var k2 := FirstDifferent(b, c);
    var k := if k1 < k2 then k1 else k2;
    FirstDifference(a, c, k);
  }

  // ----------------------------------------------------- check_for_updates

  /** What the release query returned: its tag and its assets' download
      addresses. */
  datatype Release = Release(tag: string, assets: seq<string>)

  predicate NotV(c: char) {
    c != 'v'
  }

  /** `tag.replace('v', '')` */
  function Latest(tag: string): (r: string)
    ensures 'v' !in r
  {
    FilterMembers(tag, NotV);
    Filter(tag, NotV)
  }

  /** `check_for_updates`: whether an update is offered and the version it
      reports. A failed query (None), a tag that does not parse and a
      release without assets all end in the handler: no update, current
      version. */
  function CheckForUpdates(response: Option<Release>): (bool, string) {
    if response.None? then (false, CurrentVersion)
    else
      var latest := Latest(response.value.tag);
      match CompareVersions(latest, CurrentVersion)
      case None => (false, CurrentVersion)
      case Some(c) =>
        if c > 0 && response.value.assets != [] then (true, latest) else (false, CurrentVersion)
  }

  /** An update is offered exactly when the release's version is strictly
      newer than the running one (and it has something to download); it is
      then the version reported. */
  lemma UpdateOnlyWhenNewer(response: Option<Release>)
    ensures CheckForUpdates(response).0 <==>
      response.Some? && response.value.assets != []
      && CompareVersions(Latest(response.value.tag), CurrentVersion) == Some(1)
    ensures CheckForUpdates(response).1 ==
      if CheckForUpdates(response).0 then Latest(response.value.tag) else CurrentVersion
  {
  }

  /** A release of the running version is never offered as an update. */
  lemma SameVersionNoUpdate(response: Option<Release>)
    requires response.Some? && Latest(response.value.tag) == CurrentVersion
    ensures !CheckForUpdates(response).0
  {
    match ParseVersion(CurrentVersion)
    case None =>
    case Some(a) => CompareReflexive(a);
  }
}
