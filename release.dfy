// The version logic of the release checker (devtools/check-release.py):
// release versions, their ordering, the "v<major>.<minor>.<patch>" tag names
// and the search for the release a new one follows. The git repository is
// a sequence of tags, each naming the commit it points at. A Python
// exception (a failed assert, an IndexError, a ValueError from int(), a
// TypeError from comparing an int with None) is the None of an Option.
module Release {
  import opened Wrappers
  import opened Decimal

  /** Version: major.minor with an optional patch level. */
  datatype Version = Version(major: int, minor: int, patch: Option<int>)

  /** A git tag: its name and (an identifier of) the commit it points at. */
  datatype Tag = Tag(name: string, commit: int)

  predicate Full(v: Version) {
    v.patch.Some?
  }

  // ---------------------------------------------------------------------
  // Splitting on a separator, as str.split with an explicit separator

  /** The parts joined back together with the separator between them. */
  function Join(parts: seq<string>, sep: char): string
    requires |parts| > 0
  {
    if |parts| == 1 then parts[0] else parts[0] + [sep] + Join(parts[1..], sep)
  }

  /**
   * str.split(sep): the maximal runs between separators, empty runs
   * included, so there is always at least one part.
   */
  function Split(s: string, sep: char): (parts: seq<string>)
    ensures |parts| > 0
  {
    if |s| == 0 then [""]
    else if s[0] == sep then [""] + Split(s[1..], sep)
    else
      var rest := Split(s[1..], sep);
      [[s[0]] + rest[0]] + rest[1..]
  }

  /** The parts hold no separator, and joining them gives back the string. */
  lemma {:induction false} JoinSplit(s: string, sep: char)
    ensures forall i :: 0 <= i < |Split(s, sep)| ==> sep !in Split(s, sep)[i]
    ensures Join(Split(s, sep), sep) == s
    decreases |s|
  {
    if |s| > 0 {
      JoinSplit(s[1..], sep);
      var rest := Split(s[1..], sep);
      var parts := Split(s, sep);
      if s[0] == sep {
        assert parts[1..] == rest;
        assert s == [sep] + s[1..];
      } else {
        assert parts[1..] == rest[1..];
        if |rest| > 1 {
          assert Join(rest, sep) == rest[0] + [sep] + Join(rest[1..], sep);
        }
        assert s == [s[0]] + s[1..];
        forall i | 0 <= i < |parts| ensures sep !in parts[i] {
          if i == 0 {
            assert parts[0] == [s[0]] + rest[0];
          } else {
            assert parts[i] == rest[i];
          }
        }
      }
    }
  }

  lemma {:induction false} SplitNoSep(a: string, sep: char)
    requires sep !in a
    ensures Split(a, sep) == [a]
    decreases |a|
  {
    if |a| > 0 {
      assert sep !in a[1..] by {
        forall i | 0 <= i < |a[1..]| ensures a[1..][i] != sep {
          assert a[1..][i] == a[i + 1];
        }
      }
      SplitNoSep(a[1..], sep);
      assert [a[0]] + a[1..] == a;
    }
  }

  lemma {:induction false} SplitCons(a: string, t: string, sep: char)
    requires sep !in a
    ensures Split(a + [sep] + t, sep) == [a] + Split(t, sep)
    decreases |a|
  {
    var s := a + [sep] + t;
    if |a| == 0 {
      assert s[0] == sep && s[1..] == t;
    } else {
      assert sep !in a[1..] by {
        forall i | 0 <= i < |a[1..]| ensures a[1..][i] != sep {
          assert a[1..][i] == a[i + 1];
        }
      }
      assert s[0] == a[0] && s[0] != sep;
      assert s[1..] == a[1..] + [sep] + t;
      SplitCons(a[1..], t, sep);
      assert [a[0]] + a[1..] == a;
    }
  }

  /** Splitting undoes joining parts that hold no separator. */
  lemma {:induction false} SplitJoin(parts: seq<string>, sep: char)
    requires |parts| > 0 && forall i :: 0 <= i < |parts| ==> sep !in parts[i]
    ensures Split(Join(parts, sep), sep) == parts
    decreases |parts|
  {
    if |parts| == 1 {
      SplitNoSep(parts[0], sep);
    } else {
      SplitJoin(parts[1..], sep);
      SplitCons(parts[0], Join(parts[1..], sep), sep);
      assert [parts[0]] + parts[1..] == parts;
    }
  }

  // ---------------------------------------------------------------------
  // Version: __str__, __lt__, __eq__

  /** Version.__str__: "%d.%d", followed by ".%d" when there is a patch level. */
  function VersionStr(v: Version): string {
    var s := IntToString(v.major) + "." + IntToString(v.minor);
    if v.patch.Some? then s + "." + IntToString(v.patch.value) else s
  }

  /** The dotted fields of a version, in order. */
  function Fields(v: Version): (fs: seq<string>)
    ensures |fs| == (if v.patch.Some? then 3 else 2)
  {
    [IntToString(v.major), IntToString(v.minor)] + (if v.patch.Some? then [IntToString(v.patch.value)] else [])
  }

  lemma NoDotInInt(i: int)
    ensures '.' !in IntToString(i)
  {
    var s := IntToString(i);
    forall k | 0 <= k < |s| ensures s[k] != '.' {
    }
  }

  /** __str__ renders "M.m" or "M.m.p": two or three decimal fields separated by dots. */
  lemma VersionStrFields(v: Version)
    ensures Split(VersionStr(v), '.') == Fields(v)
  {
    NoDotInInt(v.major);
    NoDotInInt(v.minor);
    var fs := Fields(v);
    if v.patch.Some? {
      NoDotInInt(v.patch.value);
      assert fs[1..][1..] == [fs[2]];
      assert Join(fs[1..], '.') == fs[1] + ['.'] + fs[2];
      assert Join(fs, '.') == fs[0] + ['.'] + (fs[1] + ['.'] + fs[2]);
    } else {
      assert fs[1..] == [fs[1]];
      assert Join(fs, '.') == fs[0] + ['.'] + fs[1];
    }
    assert Join(fs, '.') == VersionStr(v);
    SplitJoin(fs, '.');
  }

  /**
   * Version.__lt__. At equal major and minor a patch-less left operand
   * asserts that the right one has no patch either (and is then not less);
   * a left patch against a missing right one raises a TypeError.
   */
  function Lt(a: Version, b: Version): (r: Option<bool>)
    ensures r.None? <==> a.major == b.major && a.minor == b.minor && a.patch.Some? != b.patch.Some?
  {
    if a.major == b.major then
      if a.minor == b.minor then
        if a.patch.None? then (if b.patch.None? then Some(false) else None)
        else if b.patch.None? then None
        else Some(a.patch.value < b.patch.value)
      else Some(a.minor < b.minor)
    else Some(a.major < b.major)
  }

  /** Version.__eq__. */
  function Eq(a: Version, b: Version): (r: bool)
    ensures r <==> a == b
  {
    if a.major != b.major || a.minor != b.minor then false
    else if a.patch.None? then b.patch.None?
    else if b.patch.None? then false
    else a.patch.value == b.patch.value
  }

  /** Lexicographic order on integer sequences of the same length: the reference for __lt__. */
  function SeqLt(x: seq<int>, y: seq<int>): bool
    requires |x| == |y|
  {
    if |x| == 0 then false
    else if x[0] == y[0] then SeqLt(x[1..], y[1..])
    else x[0] < y[0]
  }

  lemma {:induction false} SeqLtOrder(x: seq<int>, y: seq<int>, z: seq<int>)
    requires |x| == |y| == |z|
    ensures !SeqLt(x, x)
    ensures SeqLt(x, y) && SeqLt(y, z) ==> SeqLt(x, z)
    ensures x != y ==> SeqLt(x, y) != SeqLt(y, x)
    decreases |x|
  {
    if |x| > 0 {
      SeqLtOrder(x[1..], y[1..], z[1..]);
      if x[0] == y[0] && x[1..] == y[1..] {
        assert x == [x[0]] + x[1..] && y == [y[0]] + y[1..];
      }
    }
  }

  function Key(v: Version): seq<int>
    requires Full(v)
  {
    [v.major, v.minor, v.patch.value]
  }

  /** __lt__ on full versions is the lexicographic order on (major, minor, patch). */
  lemma LtLexicographic(a: Version, b: Version)
    requires Full(a) && Full(b)
    ensures Lt(a, b) == Some(SeqLt(Key(a), Key(b)))
  {
    var x, y := Key(a), Key(b);
    assert x[1..][1..][1..] == [] && y[1..][1..][1..] == [];
    assert SeqLt(x[1..][1..], y[1..][1..]) == (a.patch.value < b.patch.value);
    assert SeqLt(x[1..], y[1..]) ==
      (if a.minor == b.minor then a.patch.value < b.patch.value else a.minor < b.minor);
  }

  /** __lt__ on patch-less versions is the lexicographic order on (major, minor). */
  lemma LtWithoutPatch(a: Version, b: Version)
    requires a.patch.None? && b.patch.None?
    ensures Lt(a, b) == Some(SeqLt([a.major, a.minor], [b.major, b.minor]))
  {
    var x, y := [a.major, a.minor], [b.major, b.minor];
    assert x[1..][1..] == [] && y[1..][1..] == [];
    assert SeqLt(x[1..], y[1..]) == (a.minor < b.minor);
  }

  /** On full versions __lt__ never raises and is a strict total order agreeing with __eq__. */
  lemma LtStrictOrder(a: Version, b: Version, c: Version)
    requires Full(a) && Full(b) && Full(c)
    ensures Lt(a, a) == Some(false)
    ensures Lt(a, b) == Some(true) && Lt(b, c) == Some(true) ==> Lt(a, c) == Some(true)
    ensures Lt(a, b).Some? && Lt(b, a).Some?
    ensures Eq(a, b) || Lt(a, b).value || Lt(b, a).value
    ensures !(Lt(a, b).value && Lt(b, a).value)
  {
    LtLexicographic(a, a);
    LtLexicographic(a, b);
    LtLexicographic(b, a);
    LtLexicographic(b, c);
    LtLexicographic(a, c);
    SeqLtOrder(Key(a), Key(b), Key(c));
    SeqLtOrder(Key(b), Key(a), Key(c));
    if Key(a) == Key(b) {
      assert a.patch.value == Key(a)[2] == Key(b)[2] == b.patch.value;
    }
  }

  // ---------------------------------------------------------------------
  // Tag names

  /** tag_name: "v" followed by the version's rendering. */
  function TagName(v: Version): string {
    "v" + VersionStr(v)
  }

  /**
   * get_tag_version: the name must start with 'v'; the rest is split on '.'
   * and the first three parts are read with int(), any further part being
   * ignored. The result always has a patch level.
   */
  function GetTagVersion(name: string): (r: Option<Version>)
    ensures r.Some? ==> |name| > 0 && name[0] == 'v' && Full(r.value)
  {
    if |name| == 0 || name[0] != 'v' then None
    else
      var v := Split(name[1..], '.');
      if |v| < 3 then None else VersionOf(v[0], v[1], v[2])
  }

  /** Version(int(major), int(minor), int(patch)). */
  function VersionOf(major: string, minor: string, patch: string): (r: Option<Version>)
    ensures r.Some? ==> Full(r.value)
  {
    match (PyInt(major), PyInt(minor), PyInt(patch))
    case (Some(ma), Some(mi), Some(pa)) => Some(Version(ma, mi, Some(pa)))
    case _ => None
  }

  /** get_tag_version inverts tag_name on full versions. */
  lemma TagVersionRoundTrip(v: Version)
    requires Full(v)
    ensures GetTagVersion(TagName(v)) == Some(v)
  {
    var name := TagName(v);
    assert name[1..] == VersionStr(v);
    VersionStrFields(v);
    var parts := Split(name[1..], '.');
    assert parts[0] == IntToString(v.major) && parts[1] == IntToString(v.minor);
    assert parts[2] == IntToString(v.patch.value);
    PyIntRoundTrip(v.major);
    PyIntRoundTrip(v.minor);
    PyIntRoundTrip(v.patch.value);
  }

  /** A tag named after a patch-less version has too few fields: get_tag_version raises. */
  lemma PatchlessTagRefused(v: Version)
    requires !Full(v)
    ensures GetTagVersion(TagName(v)).None?
  {
    var name := TagName(v);
    assert name[1..] == VersionStr(v);
    VersionStrFields(v);
  }

  /** Fields after the patch level do not matter. */
  lemma ExtraFieldsIgnored(v: Version, rest: string)
    requires Full(v)
    ensures GetTagVersion(TagName(v) + "." + rest) == Some(v)
  {
    var name := TagName(v) + "." + rest;
    assert name[1..] == VersionStr(v) + ['.'] + rest;
    SplitWithExtra(v, rest);
    PyIntRoundTrip(v.major);
    PyIntRoundTrip(v.minor);
    PyIntRoundTrip(v.patch.value);
  }

  /** A full version's string followed by more fields splits into its three fields first. */
  lemma SplitWithExtra(v: Version, rest: string)
    requires Full(v)
    ensures var p := Split(VersionStr(v) + ['.'] + rest, '.');
      |p| >= 3 && p[0] == IntToString(v.major) && p[1] == IntToString(v.minor) && p[2] == IntToString(v.patch.value)
  {
    NoDotInInt(v.major);
    NoDotInInt(v.minor);
    NoDotInInt(v.patch.value);
    var fs := Fields(v);
    SplitCons(fs[2], rest, '.');
    assert VersionStr(v) + ['.'] + rest == fs[0] + ['.'] + (fs[1] + ['.'] + (fs[2] + ['.'] + rest));
    SplitCons(fs[1], fs[2] + ['.'] + rest, '.');
    SplitCons(fs[0], fs[1] + ['.'] + (fs[2] + ['.'] + rest), '.');
  }

  // ---------------------------------------------------------------------
  // Release tags

  /** tag_re ('^v[0-9]+' with re.match): a 'v' and a digit at the start of the name. */
  predicate IsReleaseTag(name: string) {
    |name| >= 2 && name[0] == 'v' && IsDigit(name[1])
  }

  /** The name of a version with a non-negative major number is a release tag name. */
  lemma TagNameIsReleaseTag(v: Version)
    requires v.major >= 0
    ensures IsReleaseTag(TagName(v))
  {
    var s := NatToString(v.major);
    assert TagName(v) == "v" + s + VersionStr(v)[|s|..];
    assert TagName(v)[1] == s[0];
  }

  /** get_release_tags: the release tags, in the repository's order. */
  function ReleaseTags(tags: seq<Tag>): (r: seq<Tag>)
    ensures |r| <= |tags|
    ensures forall t :: t in r <==> t in tags && IsReleaseTag(t.name)
  {
    if |tags| == 0 then []
    else
      var last := tags[|tags| - 1];
      assert tags == tags[..|tags| - 1] + [last];
      ReleaseTags(tags[..|tags| - 1]) + (if IsReleaseTag(last.name) then [last] else [])
  }

  /** The tags of a list that point at a commit, in order. */
  function AtCommit(tags: seq<Tag>, commit: int): (r: seq<Tag>)
    ensures |r| <= |tags|
    ensures forall t :: t in r <==> t in tags && t.commit == commit
  {
    if |tags| == 0 then []
    else
      var last := tags[|tags| - 1];
      assert tags == tags[..|tags| - 1] + [last];
      AtCommit(tags[..|tags| - 1], commit) + (if last.commit == commit then [last] else [])
  }

  /** get_commit_release_tags. */
  function CommitReleaseTags(tags: seq<Tag>, commit: int): seq<Tag> {
    AtCommit(ReleaseTags(tags), commit)
  }

  /**
   * get_commit_release_tag: the one release tag at the commit; the script
   * fails unless there is exactly one.
   */
  function CommitReleaseTag(tags: seq<Tag>, commit: int): (r: Option<Tag>)
    ensures r.Some? <==> |CommitReleaseTags(tags, commit)| == 1
    ensures r.Some? ==> r.value in tags && IsReleaseTag(r.value.name) && r.value.commit == commit
    ensures r.Some? ==> forall t :: t in tags && IsReleaseTag(t.name) && t.commit == commit ==> t == r.value
    ensures (forall t :: t in tags && IsReleaseTag(t.name) ==> t.commit != commit) ==> r.None?
  {
    var ts := CommitReleaseTags(tags, commit);
    if |ts| != 1 then None
    else
      assert ts[0] in ts;
      Some(ts[0])
  }

  // ---------------------------------------------------------------------
  // The previous release

  /** A version is a candidate predecessor: same major, and an older minor or an older patch of the same minor. */
  predicate Qualifies(v: Version, target: Version)
    requires Full(v) && Full(target)
  {
    v.major == target.major
    && (v.minor < target.minor || (v.minor == target.minor && v.patch.value < target.patch.value))
  }

  /** A candidate is exactly an older version (by __lt__) of the same major line. */
  lemma QualifiesIsOlder(v: Version, target: Version)
    requires Full(v) && Full(target)
    ensures Qualifies(v, target) <==> v.major == target.major && Lt(v, target) == Some(true)
  {
    LtLexicographic(v, target);
    var x, y := Key(v), Key(target);
    assert x[1..] == [v.minor, v.patch.value] && y[1..] == [target.minor, target.patch.value];
    assert x[1..][1..] == [v.patch.value] && y[1..][1..] == [target.patch.value];
    assert x[1..][1..][1..] == [] && y[1..][1..][1..] == [];
  }

  /** Strictly later in (minor, patch): how a candidate displaces the one held. */
  predicate Above(v: Version, c: Version)
    requires Full(v) && Full(c)
  {
    v.minor > c.minor || (v.minor == c.minor && v.patch.value > c.patch.value)
  }

  predicate AllFull(vs: seq<Version>) {
    forall i :: 0 <= i < |vs| ==> Full(vs[i])
  }

  /**
   * The index of the version the scan settles on: a qualifying one that no
   * qualifying version is above, and the first such on a tie, since a later
   * one displaces the held candidate only when strictly above it.
   */
  function Pick(vs: seq<Version>, target: Version): (r: Option<nat>)
    requires Full(target) && AllFull(vs)
    ensures r.Some? ==> r.value < |vs| && Qualifies(vs[r.value], target)
    ensures r.Some? ==> forall j :: 0 <= j < |vs| && Qualifies(vs[j], target) ==> !Above(vs[j], vs[r.value])
    ensures r.Some? ==> forall j :: 0 <= j < r.value && Qualifies(vs[j], target) ==> Above(vs[r.value], vs[j])
    ensures r.None? <==> forall j :: 0 <= j < |vs| ==> !Qualifies(vs[j], target)
    decreases |vs|
  {
    if |vs| == 0 then None
    else
      var n := |vs| - 1;
      var p := Pick(vs[..n], target);
      var v := vs[n];
      assert forall j :: 0 <= j < n ==> vs[..n][j] == vs[j];
      if !Qualifies(v, target) then p
      else if p.None? then Some(n)
      else if Above(v, vs[p.value]) then Some(n)
      else p
  }

  /** get_tag_version of each tag, in order. */
  function TagVersions(ts: seq<Tag>): (os: seq<Option<Version>>)
    ensures |os| == |ts|
    ensures forall i :: 0 <= i < |ts| ==> os[i] == GetTagVersion(ts[i].name)
    ensures forall i :: 0 <= i < |ts| && os[i].Some? ==> Full(os[i].value)
  {
    seq(|ts|, i requires 0 <= i < |ts| => GetTagVersion(ts[i].name))
  }

  /** All the values, or None when one of them is missing. */
  function AllSome(os: seq<Option<Version>>): (r: Option<seq<Version>>)
    ensures r.None? <==> exists i :: 0 <= i < |os| && os[i].None?
    ensures r.Some? ==> |r.value| == |os| && forall i :: 0 <= i < |os| ==> os[i] == Some(r.value[i])
  {
    if |os| == 0 then Some([])
    else
      var n := |os| - 1;
      assert forall i :: 0 <= i < n ==> os[..n][i] == os[i];
      var prev := AllSome(os[..n]);
      if prev.None? || os[n].None? then None else Some(prev.value + [os[n].value])
  }

  /** One more version: it is taken when it qualifies and is above the one held. */
  lemma PickStep(vs: seq<Version>, v: Version, target: Version)
    requires Full(target) && AllFull(vs) && Full(v)
    ensures AllFull(vs + [v])
    ensures var p := Pick(vs, target);
      Pick(vs + [v], target) ==
        if Qualifies(v, target) && (p.None? || Above(v, vs[p.value])) then Some(|vs|) else p
  {
    var next := vs + [v];
    assert next[..|vs|] == vs && next[|vs|] == v;
  }

  /** The versions of a list of tags, or None when get_tag_version raises on one of them. */
  function Versions(ts: seq<Tag>): (r: Option<seq<Version>>)
    ensures r.None? <==> exists i :: 0 <= i < |ts| && GetTagVersion(ts[i].name).None?
    ensures r.Some? ==> |r.value| == |ts| && AllFull(r.value)
    ensures r.Some? ==> forall i :: 0 <= i < |ts| ==> GetTagVersion(ts[i].name) == Some(r.value[i])
  {
    var os := TagVersions(ts);
    var r := AllSome(os);
    assert r.None? ==> exists i :: 0 <= i < |ts| && GetTagVersion(ts[i].name).None?;
    assert r.Some? ==> forall i :: 0 <= i < |ts| ==> r.value[i] == os[i].value;
    r
  }

  /** The result of scanning tags in order: None when get_tag_version raises, else the candidate. */
  function PrevAmong(ts: seq<Tag>, target: Version): Option<Option<Tag>>
    requires Full(target)
  {
    match Versions(ts)
    case None => None
    case Some(vs) =>
      var p := Pick(vs, target);
      Some(if p.None? then None else Some(ts[p.value]))
  }

  /**
   * The loop of get_prev_release_tag over a list of tags: each tag's version
   * is read; one of another major line or not older than the target is
   * skipped; the first candidate is taken, and a later one replaces the
   * held candidate (whose version is read again) when its minor is larger,
   * or its minor equal and its patch larger.
   */
  method ScanPrev(ts: seq<Tag>, target: Version) returns (raised: bool, candidate: Option<Tag>)
    requires Full(target)
    ensures raised <==> PrevAmong(ts, target).None?
    ensures !raised ==> PrevAmong(ts, target) == Some(candidate)
  {
    candidate := None;
    ghost var pick: Option<nat> := None;
    ghost var vs: seq<Version> := [];
    ghost var os := TagVersions(ts);
    var i := 0;
    while i < |ts|
      invariant 0 <= i <= |ts| && |vs| == i && AllFull(vs)
      invariant forall k :: 0 <= k < i ==> os[k] == Some(vs[k])
      invariant pick == Pick(vs, target)
      invariant pick.Some? ==> pick.value < i && candidate == Some(ts[pick.value])
      invariant pick.None? ==> candidate.None?
    {
      var tag := ts[i];
      var v := GetTagVersion(tag.name);
      assert v == os[i];
      if v.None? {
        assert AllSome(os).None?;
        return true, None;
      }
      var take := false;
      if v.value.major != target.major || v.value.minor > target.minor {
      } else if v.value.minor == target.minor && v.value.patch.value >= target.patch.value {
      } else if candidate.None? {
        take := true;
      } else {
        var candidateV := GetTagVersion(candidate.value.name);
        assert candidateV == os[pick.value];
        if v.value.minor > candidateV.value.minor {
          take := true;
        } else if v.value.minor == candidateV.value.minor && v.value.patch.value > candidateV.value.patch.value {
          take := true;
        }
      }
      ghost var next := vs + [v.value];
      assert take <==> Qualifies(v.value, target) && (pick.None? || Above(v.value, vs[pick.value]));
      PickStep(vs, v.value, target);
      vs := next;
      if take {
        candidate := Some(tag);
        pick := Some(i);
      }
      i := i + 1;
    }
    assert AllSome(os).value == vs;
    return false, candidate;
  }

  /**
   * get_prev_release_tag as written: the scan starts at the second release
   * tag (release_tags[1:]), so the first release tag is never a candidate.
   */
  method GetPrevReleaseTag(tags: seq<Tag>, target: Version) returns (raised: bool, candidate: Option<Tag>)
    requires Full(target)
    ensures var rts := ReleaseTags(tags);
      var r := PrevAmong(if |rts| == 0 then [] else rts[1..], target);
      (raised <==> r.None?) && (!raised ==> r == Some(candidate))
  {
    var rts := ReleaseTags(tags);
    raised, candidate := ScanPrev(if |rts| == 0 then [] else rts[1..], target);
  }

  /** The previous release as evidently intended: the scan covers every release tag. */
  function PrevReleaseTag(tags: seq<Tag>, target: Version): Option<Option<Tag>>
    requires Full(target)
  {
    PrevAmong(ReleaseTags(tags), target)
  }

  /** get_prev_release_tag with the scan over every release tag. */
  method GetPrevReleaseTagCorrected(tags: seq<Tag>, target: Version) returns (raised: bool, candidate: Option<Tag>)
    requires Full(target)
    ensures raised <==> PrevReleaseTag(tags, target).None?
    ensures !raised ==> PrevReleaseTag(tags, target) == Some(candidate)
  {
    raised, candidate := ScanPrev(ReleaseTags(tags), target);
  }

  /**
   * The scan over a list of tags raises only on a tag whose version cannot
   * be read; otherwise it settles on the latest strictly older version of the
   * target's major line, the first one on a tie, and on None only when no
   * tag is such.
   */
  lemma PrevAmongLaw(ts: seq<Tag>, target: Version)
    requires Full(target)
    ensures PrevAmong(ts, target).None? <==> exists i :: 0 <= i < |ts| && GetTagVersion(ts[i].name).None?
    ensures PrevAmong(ts, target).Some? ==>
      var vs := Versions(ts).value;
      (PrevAmong(ts, target).value.None? <==> forall j :: 0 <= j < |ts| ==> !Qualifies(vs[j], target))
    ensures PrevAmong(ts, target).Some? && PrevAmong(ts, target).value.Some? ==>
      var vs := Versions(ts).value;
      exists i :: 0 <= i < |ts| && ts[i] == PrevAmong(ts, target).value.value && Qualifies(vs[i], target)
        && (forall j :: 0 <= j < |ts| && Qualifies(vs[j], target) ==> !Above(vs[j], vs[i]))
        && (forall j :: 0 <= j < i && Qualifies(vs[j], target) ==> Above(vs[i], vs[j]))
  {
    var r := Versions(ts);
    if r.Some? {
      var p := Pick(r.value, target);
      if p.Some? {
        var i := p.value;
        assert ts[i] == PrevAmong(ts, target).value.value;
      }
    }
  }

  /**
   * The first release tag is skipped: when the only older release of the
   * target's line comes first among the release tags, the script finds no
   * previous release, where that one is intended.
   */
  lemma SkipsFirstRelease(t0: Tag, t1: Tag, v0: Version, v1: Version)
    requires IsReleaseTag(t0.name) && IsReleaseTag(t1.name)
    requires GetTagVersion(t0.name) == Some(v0) && GetTagVersion(t1.name) == Some(v1)
    requires Qualifies(v0, v1)
    ensures PrevAmong(ReleaseTags([t0, t1])[1..], v1) == Some(None)
    ensures PrevReleaseTag([t0, t1], v1) == Some(Some(t0))
  {
    var tags := [t0, t1];
    assert tags[..1] == [t0] && tags[..1][..0] == [];
    assert ReleaseTags(tags) == tags;
    assert tags[1..] == [t1];
    AloneHasNoPrev(t1, v1);
    PairPrev(t0, t1, v0, v1);
  }

  /** A tag alone has no predecessor of its own version. */
  lemma AloneHasNoPrev(t: Tag, v: Version)
    requires GetTagVersion(t.name) == Some(v) && Full(v)
    ensures PrevAmong([t], v) == Some(None)
  {
    assert Versions([t]).value == [v];
    PickStep([], v, v);
    assert [] + [v] == [v];
  }

  /** Of two tags, the first is found before the second when it qualifies. */
  lemma PairPrev(t0: Tag, t1: Tag, v0: Version, v1: Version)
    requires GetTagVersion(t0.name) == Some(v0) && GetTagVersion(t1.name) == Some(v1)
    requires Full(v0) && Full(v1) && Qualifies(v0, v1)
    ensures PrevAmong([t0, t1], v1) == Some(Some(t0))
  {
    assert Versions([t0, t1]).value == [v0, v1];
    PickPair(v0, v1);
  }

  /** The scan over two versions settles on the first when it qualifies for the second. */
  lemma PickPair(v0: Version, v1: Version)
    requires Full(v0) && Full(v1) && Qualifies(v0, v1)
    ensures AllFull([v0, v1]) && Pick([v0, v1], v1) == Some(0)
  {
    PickStep([], v0, v1);
    assert [] + [v0] == [v0];
    PickStep([v0], v1, v1);
    assert [v0] + [v1] == [v0, v1];
  }

  /** The counterexample: releases 1.0.0 and 1.1.0 in that order; none is found before 1.1.0. */
  lemma SkippedFirstTag()
    ensures var v0, v1 := Version(1, 0, Some(0)), Version(1, 1, Some(0));
      var tags := [Tag(TagName(v0), 1), Tag(TagName(v1), 2)];
      PrevAmong(ReleaseTags(tags)[1..], v1) == Some(None)
      && PrevReleaseTag(tags, v1) == Some(Some(tags[0]))
  {
    var v0, v1 := Version(1, 0, Some(0)), Version(1, 1, Some(0));
    TagVersionRoundTrip(v0);
    TagVersionRoundTrip(v1);
    TagNameIsReleaseTag(v0);
    TagNameIsReleaseTag(v1);
    SkipsFirstRelease(Tag(TagName(v0), 1), Tag(TagName(v1), 2), v0, v1);
  }
}
