/**
 * FspPathSuffixIndex: the index of the last component of a path, found by
 * splitting the caller's buffer in place and putting it back together.
 *
 * FspPathSuffix and FspPathCombine are declared in winfsp/winfsp.h; library.h
 * does not define them. They are modelled here by the behaviour
 * FspPathSuffixIndex relies on. The split finds the last run of `\`
 * separators; the suffix starts just after it. If the run starts at the very
 * beginning of the path, the remaining (parent) part is the caller's Root
 * string `\`; the model then leaves the buffer unwritten, and
 * CombineUndoesRootWrite shows that a NUL written there would be undone all
 * the same. Otherwise the first separator of the run is overwritten with a
 * NUL and the remaining part is the buffer itself. With no separator at all
 * the remaining part is the whole path and the suffix is empty. The combine
 * turns every NUL before the suffix back into a separator.
 */
module PathSuffix {
  import opened WideString

  const Separator: char := '\\'

  /** Index just after the last separator of t; 0 when t has none. */
  function LastSeparatorEnd(t: seq<char>): (e: nat)
    ensures e <= |t|
    ensures e > 0 ==> t[e - 1] == Separator
    ensures forall i :: e <= i < |t| ==> t[i] != Separator
  {
    if |t| == 0 then 0
    else if t[|t| - 1] == Separator then |t|
    else LastSeparatorEnd(t[..|t| - 1])
  }

  /** Start of the run of separators that ends just before index e. */
  function RunStart(t: seq<char>, e: nat): (k: nat)
    requires e <= |t|
    ensures k <= e
    ensures forall i :: k <= i < e ==> t[i] == Separator
    ensures k == 0 || t[k - 1] != Separator
  {
    if e == 0 || t[e - 1] != Separator then e else RunStart(t, e - 1)
  }

  /** The contract of LastSeparatorEnd determines its value. */
  lemma LastSeparatorEndUnique(t: seq<char>, e: nat)
    requires e <= |t|
    requires e > 0 ==> t[e - 1] == Separator
    requires forall i :: e <= i < |t| ==> t[i] != Separator
    ensures LastSeparatorEnd(t) == e
  {
  }

  /** The contract of RunStart determines its value. */
  lemma RunStartUnique(t: seq<char>, e: nat, k: nat)
    requires k <= e <= |t|
    requires forall i :: k <= i < e ==> t[i] == Separator
    requires k == 0 || t[k - 1] != Separator
    ensures RunStart(t, e) == k
  {
  }

  /** What FspPathSuffix makes of the Remain pointer. */
  datatype Remain =
    | WholePath        // no separator: Remain is the path, unchanged
    | RootString       // the last separator run starts the path: Remain is the caller's Root
    | Truncated(at: nat) // a NUL is written at `at`: Remain is the path, cut there

  /** FspPathSuffix on the string t: the Remain it produces and the index of Suffix. */
  datatype Split = Split(remain: Remain, suffix: nat)

  /** The split FspPathSuffix performs on the string t. */
  function SuffixSplit(t: seq<char>): (sp: Split)
    ensures sp.suffix <= |t|
    ensures sp.remain.Truncated? ==> 0 < sp.remain.at < sp.suffix && t[sp.remain.at] == Separator
  {
    var e := LastSeparatorEnd(t);
    if e == 0 then Split(WholePath, |t|)
    else if RunStart(t, e) == 0 then Split(RootString, e)
    else Split(Truncated(RunStart(t, e)), e)
  }

  /** The buffer after FspPathSuffix has written its NUL (if any). */
  function AfterSplit(buf: seq<char>, sp: Split): seq<char>
    requires sp.remain.Truncated? ==> sp.remain.at < |buf|
  {
    if sp.remain.Truncated? then buf[sp.remain.at := Nul] else buf
  }

  /** The buffer after FspPathCombine: every NUL before index `suffix` becomes a separator. */
  function Combined(buf: seq<char>, suffix: nat): (r: seq<char>)
    ensures |r| == |buf|
  {
    seq(|buf|, i requires 0 <= i < |buf| => if i < suffix && buf[i] == Nul then Separator else buf[i])
  }

  /** The value FspPathSuffixIndex returns for the string t: Suffix - Remain, or 0 for Root. */
  function SuffixIndex(t: seq<char>): (r: nat)
    ensures r <= |t|
    ensures r > 0 ==> Separator !in t[r..]
    ensures r > 0 ==> t[r - 1] == Separator || (r == |t| && Separator !in t)
  {
    var sp := SuffixSplit(t);
    if sp.remain.RootString? then 0 else sp.suffix
  }

  /**
   * The index is 0 exactly for the empty path and for a path that starts with
   * a separator and whose separators all belong to that leading run (a
   * component directly under the root).
   */
  lemma SuffixIndexZero(t: seq<char>)
    ensures SuffixIndex(t) == 0 <==>
      t == [] ||
      (t[0] == Separator && forall i, j :: 0 <= j < i < |t| && t[i] == Separator ==> t[j] == Separator)
  {
  }

  /** A path with no separator: Remain is the whole path and Suffix its end. */
  lemma SuffixIndexNoSeparator(t: seq<char>)
    requires Separator !in t
    ensures SuffixSplit(t) == Split(WholePath, |t|)
    ensures SuffixIndex(t) == |t|
  {
  }

  /** A root-level path: one or more separators, then a name; the index is 0. */
  lemma {:induction false} SuffixIndexRootChild(t: seq<char>, m: nat)
    requires 0 < m <= |t|
    requires forall i :: 0 <= i < m ==> t[i] == Separator
    requires forall i :: m <= i < |t| ==> t[i] != Separator
    ensures SuffixSplit(t) == Split(RootString, m)
    ensures SuffixIndex(t) == 0
  {
    LastSeparatorEndUnique(t, m);
    RunStartUnique(t, m, 0);
  }

  /**
   * A path made of a parent holding at least one non-separator, a separator
   * and a name: the index is where the name starts, and the NUL goes on the
   * first separator after the parent's last non-separator character.
   */
  lemma {:induction false} SuffixIndexChild(parent: seq<char>, name: seq<char>, j: nat)
    requires j < |parent| && parent[j] != Separator
    requires forall i :: j < i < |parent| ==> parent[i] == Separator
    requires Separator !in name
    ensures SuffixSplit(parent + [Separator] + name) == Split(Truncated(j + 1), |parent| + 1)
    ensures SuffixIndex(parent + [Separator] + name) == |parent| + 1
  {
    var t := parent + [Separator] + name;
    assert forall i :: |parent| + 1 <= i < |t| ==> t[i] == name[i - |parent| - 1];
    LastSeparatorEndUnique(t, |parent| + 1);
    RunStartUnique(t, |parent| + 1, j + 1);
  }

  /**
   * After the split the buffer holds the parent path (when it was cut) and,
   * from Suffix on, the last component, which contains no separator.
   */
  lemma SplitViews(buf: seq<char>)
    requires Terminated(buf)
    ensures var t := CStr(buf); var sp := SuffixSplit(t); var cut := AfterSplit(buf, sp);
      Terminated(cut[sp.suffix..]) &&
      CStr(cut[sp.suffix..]) == t[sp.suffix..] &&
      Separator !in t[sp.suffix..] &&
      (sp.remain.Truncated? ==> Terminated(cut) && CStr(cut) == t[..sp.remain.at])
  {
    var t := CStr(buf);
    var sp := SuffixSplit(t);
    var cut := AfterSplit(buf, sp);
    var s := sp.suffix;
    assert cut[s..][..|t| - s] == t[s..];
    assert cut[s..][|t| - s] == Nul;
    CStrOfPrefix(cut[s..], t[s..]);
    if sp.remain.Truncated? {
      var k := sp.remain.at;
      CStrOfPrefix(cut, t[..k]);
    }
  }

  /**
   * In the Root case a split that also wrote a NUL on the leading separator
   * would be undone by the combine just the same.
   */
  lemma CombineUndoesRootWrite(buf: seq<char>)
    requires Terminated(buf)
    requires SuffixSplit(CStr(buf)).remain.RootString?
    ensures Combined(buf[0 := Nul], SuffixSplit(CStr(buf)).suffix) == buf
  {
    var t := CStr(buf);
    var e := LastSeparatorEnd(t);
    assert e > 0 && RunStart(t, e) == 0;
    assert buf[0] == t[0] == Separator;
  }

  /** FspPathCombine undoes FspPathSuffix: the buffer is back to what it was. */
  lemma CombineUndoesSplit(buf: seq<char>)
    requires Terminated(buf)
    ensures var sp := SuffixSplit(CStr(buf));
      Combined(AfterSplit(buf, sp), sp.suffix) == buf
  {
  }

  /** FspPathSuffix: split the buffer at the last separator run. */
  method PathSuffix(name: array<char>) returns (remainIsRoot: bool, suffix: nat)
    requires Terminated(name[..])
    modifies name
    ensures var sp := SuffixSplit(CStr(old(name[..])));
      remainIsRoot == sp.remain.RootString? &&
      suffix == sp.suffix &&
      name[..] == AfterSplit(old(name[..]), sp)
  {
    ghost var t := CStr(name[..]);
    var p := 0;
    var remainEnd := 0;
    var found := false;
    var afterRun := 0;
    while name[p] != Nul
      invariant p <= |t| && name[..] == old(name[..])
      invariant !found ==> forall i :: 0 <= i < p ==> t[i] != Separator
      invariant found ==> remainEnd < afterRun <= p
      invariant found ==> forall i :: remainEnd <= i < afterRun ==> t[i] == Separator
      invariant found ==> remainEnd == 0 || t[remainEnd - 1] != Separator
      invariant found ==> forall i :: afterRun <= i < p ==> t[i] != Separator
      invariant found && afterRun == p ==> name[p] != Separator
      decreases |t| - p
    {
      if name[p] == Separator {
        remainEnd := p;
        p := p + 1;
        while name[p] == Separator
          invariant remainEnd < p <= |t| && name[..] == old(name[..])
          invariant forall i :: remainEnd <= i < p ==> t[i] == Separator
          decreases |t| - p
        {
          p := p + 1;
        }
        found := true;
        afterRun := p;
      } else {
        p := p + 1;
      }
    }
    assert p == |t|;
    if found {
      LastSeparatorEndUnique(t, afterRun);
      RunStartUnique(t, afterRun, remainEnd);
      if remainEnd == 0 {
        remainIsRoot := true;
      } else {
        name[remainEnd] := Nul;
        remainIsRoot := false;
      }
      suffix := afterRun;
    } else {
      LastSeparatorEndUnique(t, 0);
      remainIsRoot := false;
      suffix := p;
    }
  }

  /** FspPathCombine: turn every NUL before `suffix` back into a separator. */
  method PathCombine(name: array<char>, suffix: nat)
    requires suffix <= name.Length
    modifies name
    ensures name[..] == Combined(old(name[..]), suffix)
  {
    var p := 0;
    while p < suffix
      invariant p <= suffix
      invariant name[..] == Combined(old(name[..]), p)
    {
      if name[p] == Nul {
        name[p] := Separator;
      }
      p := p + 1;
    }
  }

  /**
   * FspPathSuffixIndex: the index of the last path component (0 for a
   * component directly under the root), leaving the buffer as it found it.
   */
  method PathSuffixIndex(name: array<char>) returns (r: nat)
    requires Terminated(name[..])
    modifies name
    ensures r == SuffixIndex(CStr(old(name[..])))
    ensures name[..] == old(name[..])
  {
    var remainIsRoot, suffix := PathSuffix(name);
    r := if remainIsRoot then 0 else suffix;
    PathCombine(name, suffix);
    CombineUndoesSplit(old(name[..]));
  }
}
