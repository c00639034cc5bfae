/**
 * The two project pages of the GUI: the selection page, which labels its
 * buttons with (possibly truncated) project names, and the project page,
 * which creates a new project under the first free default name.
 */
module ProjectPages {
  import opened Wrappers
  import opened Text

  // ---------------------------------------------------------------------
  // The selection page (`ProjectSelectionPage`)
  // ---------------------------------------------------------------------

  /** Where Python's slice `s[0:e]` stops for a string of length `n`: a negative end counts from the back. */
  function SliceEnd(e: int, n: nat): (r: nat)
    ensures r <= n
    ensures 0 <= e <= n ==> r == e
    ensures e < 0 && 0 <= n + e ==> r == n + e
  {
    if e < 0 then (if e + n < 0 then 0 else e + n)
    else if e > n then n else e
  }

  /** `truncate`: a string longer than `maxLen` keeps its slice `[0:maxLen-3]` followed by `...`. */
  function Truncate(s: string, maxLen: int): (r: string)
    ensures r == s || (|r| >= 3 && r[|r| - 3..] == "..." && r[..|r| - 3] <= s && |r| - 3 <= |s|)
  {
    if |s| > maxLen then
      var kept := s[..SliceEnd(maxLen - 3, |s|)];
      assert (kept + "...")[..|kept|] == kept;
      kept + "..."
    else s
  }

  /** A string that fits is returned as it is. */
  lemma TruncateFits(s: string, maxLen: int)
    requires |s| <= maxLen
    ensures Truncate(s, maxLen) == s
  {
  }

  /** With room for the ellipsis, a string that does not fit becomes its first `maxLen - 3` characters and `...`, exactly `maxLen` long. */
  lemma TruncateCuts(s: string, maxLen: int)
    requires 3 <= maxLen < |s|
    ensures var r := Truncate(s, maxLen); |r| == maxLen && r == s[..maxLen - 3] + "..."
  {
  }

  /** With room for the ellipsis the result never exceeds `maxLen`, and truncating again changes nothing. */
  lemma TruncateIdempotent(s: string, maxLen: int)
    requires maxLen >= 3
    ensures |Truncate(s, maxLen)| <= maxLen
    ensures Truncate(Truncate(s, maxLen), maxLen) == Truncate(s, maxLen)
  {
    if |s| > maxLen {
      TruncateCuts(s, maxLen);
    }
  }

  /**
   * Below 3 the ellipsis alone is too long, and a negative slice end counts
   * from the back: a string that does not fit comes back longer than `maxLen`.
   */
  lemma TruncateBelowThree(s: string, maxLen: int)
    requires maxLen < 3 && |s| > maxLen
    ensures |Truncate(s, maxLen)| > maxLen
    ensures |Truncate(s, maxLen)| == 3 + (if |s| + maxLen - 3 < 0 then 0 else |s| + maxLen - 3)
  {
  }

  /** The label shown for the last button, past the projects. */
  const NewProject := "New Project"

  /**
   * `get_project_name`: "New Project" past the last project, otherwise the
   * project at that position (a negative position counts from the back);
   * `None` is the `IndexError` of a position before the first.
   */
  function GetProjectName(projects: seq<string>, index: int): (r: Option<string>)
    ensures r.None? <==> index < -|projects|
    ensures index >= |projects| ==> r == Some(NewProject)
    ensures 0 <= index < |projects| ==> r == Some(projects[index])
    ensures -|projects| <= index < 0 ==> r == Some(projects[|projects| + index])
  {
    if index >= |projects| then Some(NewProject)
    else if index >= 0 then Some(projects[index])
    else if index >= -|projects| then Some(projects[|projects| + index])
    else None
  }

  /** The buttons numbered `0..|projects|` show the projects in order, then "New Project". */
  lemma ButtonLabels(projects: seq<string>)
    ensures seq(|projects| + 1, i requires 0 <= i <= |projects| => GetProjectName(projects, i).value) == projects + [NewProject]
  {
  }

  // ---------------------------------------------------------------------
  // The project page (`ProjectPage.create_new_project`)
  // ---------------------------------------------------------------------

  const DefaultName := "New_project_"

  /** The `n`-th default project name, `"New_project_" + str(n)`. */
  function ProjectName(n: nat): (r: string)
    ensures |r| > |DefaultName| && r[..|DefaultName|] == DefaultName && r[|DefaultName|..] == NatToString(n)
  {
    DefaultName + NatToString(n)
  }

  /** Distinct numbers give distinct default names. */
  lemma ProjectNameInjective(a: nat, b: nat)
    ensures ProjectName(a) == ProjectName(b) ==> a == b
  {
    NatToStringInjective(a, b);
  }

  /** A listing holding the first `n` default names has at least `n` entries. */
  lemma {:induction false} NamesFitInListing(listing: seq<string>, n: nat)
    requires forall k :: 0 <= k < n ==> ProjectName(k) in listing
    ensures n <= |listing|
    decreases n
  {
    if n > 0 {
      var i :| 0 <= i < |listing| && listing[i] == ProjectName(n - 1);
      var rest := listing[..i] + listing[i + 1..];
      forall k | 0 <= k < n - 1
        ensures ProjectName(k) in rest
      {
        ProjectNameInjective(k, n - 1);
        var j :| 0 <= j < |listing| && listing[j] == ProjectName(k);
        assert j != i;
        if j < i {
          assert rest[j] == listing[j];
        } else {
          assert rest[j - 1] == listing[j];
        }
      }
      NamesFitInListing(rest, n - 1);
    }
  }

  /**
   * The search loop of `create_new_project`: try 0, 1, 2, ... and scan the
   * listing for each name, stopping at the first name that is not there.
   * The result is the smallest free number, and it is at most the number
   * of entries.
   */
  method FreshIndex(listing: seq<string>) returns (index: nat)
    ensures ProjectName(index) !in listing
    ensures forall k :: 0 <= k < index ==> ProjectName(k) in listing
    ensures index <= |listing|
  {
    var i := -1;
    var used := true;
    while used
      invariant -1 <= i
      invariant forall k :: 0 <= k < i ==> ProjectName(k) in listing
      invariant used ==> i < |listing| && (i == -1 || ProjectName(i) in listing)
      invariant !used ==> i >= 0 && ProjectName(i) !in listing
      decreases |listing| - i
    {
      i := i + 1;
      used := false;
      var j := 0;
      while j < |listing| && !used
        invariant 0 <= j <= |listing|
        invariant !used ==> forall m :: 0 <= m < j ==> listing[m] != ProjectName(i)
        invariant used ==> ProjectName(i) in listing
      {
        if listing[j] == ProjectName(i) {
          used := true;
        }
        j := j + 1;
      }
      if used {
        NamesFitInListing(listing, i + 1);
      }
    }
    NamesFitInListing(listing, i);
    index := i;
  }

  /** The projects directory, as the list of names `os.listdir` returns. */
  class ProjectsDirectory {
    var entries: seq<string>

    constructor (entries: seq<string>)
      ensures this.entries == entries
    {
      this.entries := entries;
    }

    /**
     * `create_new_project`: find the first free default name, then create
     * it (its `agents` and `environments` sub-directories live inside it
     * and are not entries of this directory).
     */
    method CreateNewProject() returns (name: string)
      modifies this
      ensures entries == old(entries) + [name] && name !in old(entries)
      ensures exists n: nat :: (name == ProjectName(n) && n <= |old(entries)|
        && forall k :: 0 <= k < n ==> ProjectName(k) in old(entries))
    {
      var index := FreshIndex(entries);
      name := ProjectName(index);
      entries := entries + [name];
    }
  }
}
