/** The path arithmetic of CodeParser::createOutputSubdirectory: which
    output sub-directory a file belongs to, given the configured bundle base
    directory. */
module SubDirs {
  import opened Strings
  import opened Diagnostics

  /** How the derivation ends: no base directory configured; a warning with
      the current sub-directory left as it was; an empty segment, which is
      stored and then warned about; or the sub-directory found. */
  datatype SubDirOutcome =
    | Unconfigured
    | Failed(warning: Warning)
    | EmptySegment(warning: Warning)
    | Found(subDir: string)

  /** The derivation: find the first occurrence of `baseDir` in `filePath`,
      then the first '/' at or after it; the segment after that '/' up to
      the next '/' is the sub-directory. */
  function DeriveSubDir(baseDir: string, filePath: string): SubDirOutcome
  {
    if baseDir == [] then Unconfigured
    else
      var baseIdx := IndexOf(filePath, baseDir, 0);
      if baseIdx == -1 then Failed(NoBaseDirInPath(filePath, baseDir))
      else
        var slashIdx := IndexOf(filePath, "/", baseIdx);
        if slashIdx == -1 then Failed(NoSubDirAfterBaseDir(filePath, baseDir))
        else
          var subDirIdx := slashIdx + 1;
          var fileNameIdx := IndexOf(filePath, "/", subDirIdx);
          if fileNameIdx == -1 then Failed(NoFileNameAfterSubDir(filePath, filePath[subDirIdx..]))
          else if fileNameIdx == subDirIdx then EmptySegment(NoSubDirAfterBaseDir(filePath, baseDir))
          else Found(filePath[subDirIdx..fileNameIdx])
  }

  /** `b` is where `t` first occurs in `s`. */
  predicate FirstOccurrence(s: string, t: string, b: int)
  {
    OccursAt(s, t, b) && forall j :: 0 <= j < b ==> !OccursAt(s, t, j)
  }

  predicate NoSlash(s: string)
  {
    forall m :: 0 <= m < |s| ==> s[m] != '/'
  }

  lemma SlashAt(s: string, i: int)
    requires 0 <= i < |s|
    ensures OccursAt(s, "/", i) <==> s[i] == '/'
  {
    assert s[i..i + 1] == [s[i]];
  }

  /** A base directory missing from the path is reported and nothing else
      happens. */
  lemma MissingBaseDir(baseDir: string, filePath: string)
    requires baseDir != [] && forall i :: !OccursAt(filePath, baseDir, i)
    ensures DeriveSubDir(baseDir, filePath) == Failed(NoBaseDirInPath(filePath, baseDir))
  {
  }

  /** No '/' at or after the first occurrence of the base directory is
      reported, and nothing else happens. */
  lemma NoSlashAfterBaseDir(baseDir: string, filePath: string, b: int)
    requires baseDir != [] && FirstOccurrence(filePath, baseDir, b) && NoSlash(filePath[b..])
    ensures DeriveSubDir(baseDir, filePath) == Failed(NoSubDirAfterBaseDir(filePath, baseDir))
  {
    assert IndexOf(filePath, baseDir, 0) == b;
    forall j | b <= j < |filePath| ensures !OccursAt(filePath, "/", j) {
      SlashAt(filePath, j);
      assert filePath[b..][j - b] == filePath[j];
    }
  }

  /** A sub-directory segment not closed by a '/' is reported with the
      rest of the path after the '/' that opens it, and nothing else
      happens. */
  lemma NoSlashAfterSubDir(baseDir: string, filePath: string, b: int, k: int)
    requires baseDir != [] && FirstOccurrence(filePath, baseDir, b)
    requires b <= k < |filePath| && filePath[k] == '/' && NoSlash(filePath[b..k])
    requires NoSlash(filePath[k + 1..])
    ensures DeriveSubDir(baseDir, filePath) == Failed(NoFileNameAfterSubDir(filePath, filePath[k + 1..]))
  {
    assert IndexOf(filePath, baseDir, 0) == b;
    FirstSlashFrom(filePath, b, k);
    forall j | k + 1 <= j < |filePath| ensures !OccursAt(filePath, "/", j) {
      SlashAt(filePath, j);
      assert filePath[k + 1..][j - k - 1] == filePath[j];
    }
  }

  /** The success case, from the path's shape: when the base directory first
      occurs at `b`, the first '/' from there is at `k` and the next one at
      `e`, the sub-directory is the text strictly between the two slashes,
      or an empty segment when they are adjacent. */
  lemma DeriveSubDirAt(baseDir: string, filePath: string, b: int, k: int, e: int)
    requires baseDir != [] && FirstOccurrence(filePath, baseDir, b)
    requires b <= k < e < |filePath| && filePath[k] == '/' && filePath[e] == '/'
    requires NoSlash(filePath[b..k]) && NoSlash(filePath[k + 1..e])
    ensures DeriveSubDir(baseDir, filePath)
            == if e == k + 1 then EmptySegment(NoSubDirAfterBaseDir(filePath, baseDir))
               else Found(filePath[k + 1..e])
  {
    FirstSlashFrom(filePath, b, k);
    FirstSlashFrom(filePath, k + 1, e);
    assert IndexOf(filePath, baseDir, 0) == b;
  }

  /** The first '/' at or after `from` is at `k` when `k` holds one and
      nothing between does. */
  lemma FirstSlashFrom(s: string, from: nat, k: int)
    requires from <= k < |s| && s[k] == '/' && NoSlash(s[from..k])
    ensures IndexOf(s, "/", from) == k
  {
    var r := IndexOf(s, "/", from);
    SlashAt(s, k);
    if r != -1 && r < k {
      SlashAt(s, r);
    }
  }

  /** Conversely, a found sub-directory is a non-empty segment without '/'
      that sits between the first '/' at or after the first occurrence of the
      base directory and the next '/'. */
  lemma FoundSubDirShape(baseDir: string, filePath: string)
    requires DeriveSubDir(baseDir, filePath).Found?
    ensures var sub := DeriveSubDir(baseDir, filePath).subDir;
            sub != [] && NoSlash(sub)
            && exists b, k :: FirstOccurrence(filePath, baseDir, b) && b <= k
                              && k + |sub| + 1 < |filePath|
                              && filePath[k] == '/' && NoSlash(filePath[b..k])
                              && filePath[k + 1..k + 1 + |sub|] == sub && filePath[k + 1 + |sub|] == '/'
  {
    var b := IndexOf(filePath, baseDir, 0);
    var k := IndexOf(filePath, "/", b);
    var e := IndexOf(filePath, "/", k + 1);
    var sub := filePath[k + 1..e];
    assert DeriveSubDir(baseDir, filePath).subDir == sub;
    SlashAt(filePath, k);
    SlashAt(filePath, e);
    NoSlashBefore(filePath, k + 1, e);
    NoSlashBefore(filePath, b, k);
    assert FirstOccurrence(filePath, baseDir, b);
    assert filePath[k + 1..k + 1 + |sub|] == sub;
  }

  /** No '/' occurs between `from` and `end` when indexOf finds none there. */
  lemma NoSlashBefore(s: string, from: int, end: int)
    requires 0 <= from <= end <= |s|
    requires forall j :: from <= j < end ==> !OccursAt(s, "/", j)
    ensures NoSlash(s[from..end])
  {
    forall m | 0 <= m < end - from ensures s[from..end][m] != '/' {
      SlashAt(s, from + m);
    }
  }

  /** The worked example: base directory "src" in "/repo/src/sub/file.cpp"
      gives the sub-directory "sub". */
  lemma SubDirExample(filePath: string)
    requires filePath == "/repo/src/sub/file.cpp"
    ensures DeriveSubDir("src", filePath) == Found("sub")
  {
    ExampleBaseDirAt(filePath);
    ExampleSegments(filePath);
    DeriveSubDirAt("src", filePath, 6, 9, 13);
  }

  lemma ExampleBaseDirAt(filePath: string)
    requires filePath == "/repo/src/sub/file.cpp"
    ensures FirstOccurrence(filePath, "src", 6)
  {
    assert OccursAt(filePath, "src", 6) by { assert filePath[6..9] == "src"; }
    forall j | 0 <= j < 6 ensures !OccursAt(filePath, "src", j) {
      assert filePath[j] != 's';
    }
  }

  lemma ExampleSegments(filePath: string)
    requires filePath == "/repo/src/sub/file.cpp"
    ensures filePath[9] == '/' && filePath[13] == '/'
    ensures NoSlash(filePath[6..9]) && NoSlash(filePath[10..13]) && filePath[10..13] == "sub"
  {
  }
}
