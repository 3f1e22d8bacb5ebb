/**
 * The expert-dataset file name of train_expert.py: the environment id is
 * lower-cased and split on '-' into exactly a name and a version, and the
 * file `<name>_expert-<version>.hdf5` is placed in `data/expert_data`
 * (the naming convention of the D4RL datasets).
 */
module DatasetName {
  import opened Wrappers

  const DATA_DIR: string := "data/expert_data"
  const SEP: char := '-'

  /** `str.lower()` on one character, for the ASCII letters. */
  function LowerChar(c: char): char
  {
    if 'A' <= c <= 'Z' then (c as int + 32) as char else c
  }

  function Lower(s: string): (r: string)
    ensures |r| == |s|
    ensures forall i :: 0 <= i < |s| ==> r[i] == LowerChar(s[i])
    ensures forall i :: 0 <= i < |s| ==> (r[i] == SEP <==> s[i] == SEP)
    ensures forall i :: 0 <= i < |s| ==> !('A' <= r[i] <= 'Z')
  {
    if |s| == 0 then "" else [LowerChar(s[0])] + Lower(s[1..])
  }

  /** Lower-casing twice is lower-casing once. */
  lemma LowerIdempotent(s: string)
    ensures Lower(Lower(s)) == Lower(s)
  {
  }

  /** Joins parts with `sep` between consecutive parts: `sep.join(parts)`. */
  function JoinWith(parts: seq<string>, sep: char): string
    requires |parts| >= 1
  {
    if |parts| == 1 then parts[0] else parts[0] + [sep] + JoinWith(parts[1..], sep)
  }

  /**
   * `s.split(sep)`: the maximal runs of characters between separators. It
   * always yields at least one part, no part holds the separator, and
   * joining the parts back gives `s`.
   */
  function Split(s: string, sep: char): (parts: seq<string>)
    ensures |parts| >= 1
    ensures forall i :: 0 <= i < |parts| ==> sep !in parts[i]
    ensures JoinWith(parts, sep) == s
  {
    if |s| == 0 then [""]
    else
      var rest := Split(s[1..], sep);
      if s[0] == sep then
        assert ([""] + rest)[1..] == rest;
        [""] + rest
      else
        var parts := [[s[0]] + rest[0]] + rest[1..];
        assert parts[1..] == rest[1..];
        assert |rest| > 1 ==> JoinWith(rest, sep) == rest[0] + [sep] + JoinWith(rest[1..], sep);
        assert s == [s[0]] + s[1..];
        parts
  }

  /** Splitting a separator-free string yields it unchanged, as the only part. */
  lemma {:induction false} SplitNoSeparator(p: string, sep: char)
    requires sep !in p
    ensures Split(p, sep) == [p]
  {
    if |p| > 0 {
      SplitNoSeparator(p[1..], sep);
      assert [p[0]] + p[1..] == p;
    }
  }

  /** Splitting at the first separator: the part before it comes first. */
  lemma {:induction false} SplitAtFirst(p: string, sep: char, rest: string)
    requires sep !in p
    ensures Split(p + [sep] + rest, sep) == [p] + Split(rest, sep)
  {
    var s := p + [sep] + rest;
    if |p| == 0 {
      assert s[1..] == rest;
    } else {
      assert s[1..] == p[1..] + [sep] + rest;
      SplitAtFirst(p[1..], sep, rest);
      assert [p[0]] + p[1..] == p;
    }
  }

  /** Splitting undoes joining separator-free parts: the two are inverse. */
  lemma {:induction false} SplitJoin(parts: seq<string>, sep: char)
    requires |parts| >= 1
    requires forall i :: 0 <= i < |parts| ==> sep !in parts[i]
    ensures Split(JoinWith(parts, sep), sep) == parts
  {
    if |parts| == 1 {
      SplitNoSeparator(parts[0], sep);
    } else {
      SplitJoin(parts[1..], sep);
      SplitAtFirst(parts[0], sep, JoinWith(parts[1..], sep));
      assert [parts[0]] + parts[1..] == parts;
    }
  }

  /** Number of occurrences of `c` in `s`. */
  function Count(s: string, c: char): nat
  {
    if |s| == 0 then 0 else (if s[0] == c then 1 else 0) + Count(s[1..], c)
  }

  /** A string with n separators splits into n + 1 parts. */
  lemma {:induction false} SplitCount(s: string, sep: char)
    ensures |Split(s, sep)| == Count(s, sep) + 1
  {
    if |s| > 0 {
      SplitCount(s[1..], sep);
    }
  }

  /** Lower-casing keeps every separator where it was. */
  lemma {:induction false} LowerCount(s: string)
    ensures Count(Lower(s), SEP) == Count(s, SEP)
  {
    if |s| > 0 {
      LowerCount(s[1..]);
      assert Lower(s)[1..] == Lower(s[1..]);
    }
  }

  /**
   * `env_name, version = id.lower().split("-")` followed by
   * `env_name + "_expert-" + version + ".hdf5"`. The unpacking raises
   * ValueError unless there are exactly two parts, modelled as `None`.
   */
  function ExpertFileName(envId: string): (r: Option<string>)
    ensures r.Some? <==> Count(envId, SEP) == 1
  {
    var parts := Split(Lower(envId), SEP);
    SplitCount(Lower(envId), SEP);
    LowerCount(envId);
    if |parts| != 2 then None
    else Some(parts[0] + "_expert-" + parts[1] + ".hdf5")
  }

  /**
   * For an id whose only '-' is at index k, the file name is the lower-cased
   * text before k, then "_expert-", then the lower-cased text after k, then
   * ".hdf5".
   */
  lemma ExpertFileNameAt(envId: string, k: nat)
    requires k < |envId| && envId[k] == SEP
    requires forall i :: 0 <= i < |envId| && i != k ==> envId[i] != SEP
    ensures ExpertFileName(envId)
            == Some(Lower(envId)[..k] + "_expert-" + Lower(envId)[k + 1..] + ".hdf5")
  {
    var low := Lower(envId);
    OnlySeparatorCount(envId, k);
    var parts := Split(low, SEP);
    assert |parts| == 2 by {
      SplitCount(low, SEP);
      LowerCount(envId);
    }
    var p0, p1 := parts[0], parts[1];
    assert low == p0 + [SEP] + p1 by {
      JoinTwo(parts, SEP);
    }
    assert |p0| == k by {
      assert low[|p0|] == SEP;
    }
    Around(low, p0, p1);
  }

  lemma Around(s: string, p: string, q: string)
    requires s == p + [SEP] + q
    ensures p == s[..|p|] && q == s[|p| + 1..]
  {
  }

  lemma JoinTwo(parts: seq<string>, sep: char)
    requires |parts| == 2
    ensures JoinWith(parts, sep) == parts[0] + [sep] + parts[1]
  {
    assert JoinWith(parts[1..], sep) == parts[1];
  }

  lemma {:induction false} OnlySeparatorCount(s: string, k: nat)
    requires k < |s| && s[k] == SEP
    requires forall i :: 0 <= i < |s| && i != k ==> s[i] != SEP
    ensures Count(s, SEP) == 1
  {
    if k == 0 {
      NoSeparatorCount(s[1..]);
    } else {
      OnlySeparatorCount(s[1..], k - 1);
    }
  }

  lemma {:induction false} NoSeparatorCount(s: string)
    requires forall i :: 0 <= i < |s| ==> s[i] != SEP
    ensures Count(s, SEP) == 0
  {
    if |s| > 0 {
      NoSeparatorCount(s[1..]);
    }
  }

  /**
   * "_expert-" holds the only '-' of a file name built from separator-free
   * parts, so name and version can be read back from the file name.
   */
  lemma FileNameParts(n1: string, v1: string, n2: string, v2: string)
    requires SEP !in n1 && SEP !in n2
    requires n1 + "_expert-" + v1 + ".hdf5" == n2 + "_expert-" + v2 + ".hdf5"
    ensures n1 == n2 && v1 == v2
  {
    var f := n1 + "_expert-" + v1 + ".hdf5";
    FirstDash(n1, v1);
    FirstDash(n2, v2);
    assert |n1| == |n2|;
    assert n1 == f[..|n1|];
    assert n2 == f[..|n2|];
    assert v1 == f[|n1| + 8..|f| - 5];
  }

  /** In a file name built from a separator-free name, the first '-' is that of "_expert-". */
  lemma FirstDash(n: string, v: string)
    requires SEP !in n
    ensures (n + "_expert-" + v + ".hdf5")[|n| + 7] == SEP
    ensures forall i :: 0 <= i < |n| + 7 ==> (n + "_expert-" + v + ".hdf5")[i] != SEP
  {
    var f := n + "_expert-" + v + ".hdf5";
    forall i | 0 <= i < |n| + 7
      ensures f[i] != SEP
    {
      if i < |n| {
        assert f[i] == n[i];
      } else {
        assert f[i] == "_expert"[i - |n|];
      }
    }
  }

  /** Different environments (up to letter case) never share a dataset file. */
  lemma ExpertFileNameInjective(a: string, b: string)
    requires ExpertFileName(a).Some? && ExpertFileName(a) == ExpertFileName(b)
    ensures Lower(a) == Lower(b)
  {
    var pa := Split(Lower(a), SEP);
    var pb := Split(Lower(b), SEP);
    FileNameParts(pa[0], pa[1], pb[0], pb[1]);
    assert pa == pb;
  }

  /** `os.path.join(dir, name)` for two components on POSIX. */
  function JoinPath(dir: string, name: string): (r: string)
    ensures |name| > 0 && name[0] == '/' ==> r == name
  {
    if |name| > 0 && name[0] == '/' then name
    else if |dir| == 0 || dir[|dir| - 1] == '/' then dir + name
    else dir + "/" + name
  }

  /** The path the dataset is written to. */
  function ExpertDataPath(envId: string): (r: Option<string>)
    ensures r.Some? <==> Count(envId, SEP) == 1
    ensures r.Some? && ExpertFileName(envId).value[0] != '/' ==>
              r.value == DATA_DIR + "/" + ExpertFileName(envId).value
  {
    match ExpertFileName(envId)
    case None => None
    case Some(name) => Some(JoinPath(DATA_DIR, name))
  }
}
