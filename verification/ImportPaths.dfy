/** Where imported models go in the project: the content folder taken from
    the settings and normalised into a `/Game/...` package path, and the
    numbered variant of a directory that does not exist yet.

    The engine's path helpers are modelled with the semantics the bridge
    relies on. Combining "/Game/" with a path inserts no separator, because
    the root already ends in one. Normalising a directory name turns
    backslashes into slashes and drops one trailing slash, unless the path
    ends in "//" or ":/". */
module ImportPaths {
  import opened Wrappers
  import opened Settings
  import Text

  const GameRoot := "/Game/"
  const FallbackAvatarFolder := "MetaTailorImported/Avatars"
  const FallbackOutfitFolder := "MetaTailorImported/Outfits"

  /** The configured folder, or the built-in one when there are no settings. */
  function ConfiguredFolder(isAvatar: bool, settings: Option<BridgeSettings>): (folder: string)
    ensures settings.Some? ==> folder == (if isAvatar then settings.value.pathForAvatarImports else settings.value.pathForOutfitImports)
    ensures settings.None? ==> folder == (if isAvatar then "MetaTailorImported/Avatars" else "MetaTailorImported/Outfits")
  {
    if settings.Some? then
      (if isAvatar then settings.value.pathForAvatarImports else settings.value.pathForOutfitImports)
    else
      (if isAvatar then FallbackAvatarFolder else FallbackOutfitFolder)
  }

  function SlashFor(c: char): char {
    if c == '\\' then '/' else c
  }

  /** Backslashes become slashes; nothing else changes. */
  function ReplaceBackslashes(s: string): (r: string)
    ensures |r| == |s|
    ensures forall i :: 0 <= i < |s| ==> r[i] == SlashFor(s[i])
    ensures forall i :: 0 <= i < |r| ==> r[i] != '\\'
  {
    seq(|s|, i requires 0 <= i < |s| => SlashFor(s[i]))
  }

  predicate EndsInSlash(s: string) {
    |s| >= 1 && s[|s| - 1] == '/'
  }

  /** `FPaths::NormalizeDirectoryName`: after turning backslashes into
      slashes, one trailing slash is dropped unless the path ends in "//" or
      ":/". */
  function NormalizeDirectoryName(s: string): (r: string)
    ensures var n := ReplaceBackslashes(s);
      !EndsInSlash(n) ==> r == n
    ensures var n := ReplaceBackslashes(s);
      EndsInSlash(n) ==> (r == n <==> |n| >= 2 && (n[|n| - 2] == '/' || n[|n| - 2] == ':'))
    ensures var n := ReplaceBackslashes(s);
      r != n ==> r + "/" == n
  {
    var n := ReplaceBackslashes(s);
    if EndsInSlash(n) && !(|n| >= 2 && (n[|n| - 2] == '/' || n[|n| - 2] == ':')) then
      assert n[..|n| - 1] + "/" == n;
      n[..|n| - 1]
    else n
  }

  /** `FString::RemoveFromEnd("/")`. */
  function RemoveTrailingSlash(s: string): (r: string)
    ensures EndsInSlash(s) ==> r + "/" == s
    ensures !EndsInSlash(s) ==> r == s
  {
    if EndsInSlash(s) then s[..|s| - 1] else s
  }

  /** Normalising and then removing a trailing slash removes exactly one
      trailing slash, if there is one, from the path with its backslashes
      turned into slashes: whichever slash the normalisation keeps, the
      removal takes. */
  lemma TidyFolder(p: string)
    ensures RemoveTrailingSlash(NormalizeDirectoryName(p)) == RemoveTrailingSlash(ReplaceBackslashes(p))
  {
    var n := ReplaceBackslashes(p);
    var m := NormalizeDirectoryName(p);
    if m != n {
      assert m + "/" == n;
      assert n[..|n| - 1] == m;
    }
  }

  /** A folder trimmed and rooted under "/Game/" before normalisation: the
      prefix is added only when the trimmed folder does not already start
      with "/Game/", compared ignoring case. */
  function RootedFolder(folder: string): (p: string)
    ensures var t := Text.TrimStartAndEnd(folder);
      Text.StartsWithIgnoreCase(t, "/Game/") ==> p == t
    ensures var t := Text.TrimStartAndEnd(folder);
      !Text.StartsWithIgnoreCase(t, "/Game/") ==> p == "/Game/" + t
    ensures Text.StartsWithIgnoreCase(p, "/Game/")
  {
    var trimmed := Text.TrimStartAndEnd(folder);
    if Text.StartsWithIgnoreCase(trimmed, GameRoot) then trimmed
    else
      assert (GameRoot + trimmed)[..|GameRoot|] == GameRoot;
      GameRoot + trimmed
  }

  /** The package path for a configured folder: the rooted folder with
      backslashes turned into slashes and exactly one trailing slash, if
      any, removed. */
  function ImportPathFor(folder: string): (r: string)
    ensures r == RemoveTrailingSlash(ReplaceBackslashes(RootedFolder(folder)))
    ensures forall i :: 0 <= i < |r| ==> r[i] != '\\'
  {
    var p := RootedFolder(folder);
    TidyFolder(p);
    RemoveTrailingSlash(NormalizeDirectoryName(p))
  }

  /** Replacing backslashes keeps a "/Game/" prefix. */
  lemma RootSurvivesSlashes(p: string)
    requires Text.StartsWithIgnoreCase(p, "/Game/")
    ensures Text.StartsWithIgnoreCase(ReplaceBackslashes(p), "/Game/")
  {
    var n := ReplaceBackslashes(p);
    forall i | 0 <= i < 6
      ensures Text.LowerChar(n[..6][i]) == Text.LowerChar(GameRoot[i])
    {
      assert Text.LowerChar(p[..6][i]) == Text.LowerChar(GameRoot[i]);
      assert p[..6][i] != '\\';
    }
  }

  /** Removing a trailing slash from a path under "/Game/" cannot cut into
      "/Game". */
  lemma RootSurvivesTidying(r: string, n: string)
    requires r == RemoveTrailingSlash(n) && Text.StartsWithIgnoreCase(n, "/Game/")
    ensures Text.StartsWithIgnoreCase(r, "/Game")
  {
    assert Text.LowerChar(n[..6][4]) == Text.LowerChar(GameRoot[4]);
    assert n[4] != '/';
    assert |r| >= 5;
    forall i | 0 <= i < 5
      ensures Text.LowerChar(r[..5][i]) == Text.LowerChar("/Game"[i])
    {
      assert Text.LowerChar(n[..6][i]) == Text.LowerChar(GameRoot[i]);
    }
  }

  /** `GetProjectImportPath`: the configured folder, trimmed, rooted under
      "/Game/" unless already there, with slashes normalised and one
      trailing slash removed; it always lies under the game content root. */
  function GetProjectImportPath(isAvatar: bool, settings: Option<BridgeSettings>): (r: string)
    ensures r == RemoveTrailingSlash(ReplaceBackslashes(RootedFolder(ConfiguredFolder(isAvatar, settings))))
    ensures Text.StartsWithIgnoreCase(r, "/Game")
    ensures forall i :: 0 <= i < |r| ==> r[i] != '\\'
  {
    var folder := ConfiguredFolder(isAvatar, settings);
    var r := ImportPathFor(folder);
    RootSurvivesSlashes(RootedFolder(folder));
    RootSurvivesTidying(r, ReplaceBackslashes(RootedFolder(folder)));
    r
  }

  /** A path with nothing to trim is left alone by trimming. */
  lemma NothingToTrim(s: string)
    requires |s| > 0 && !Text.IsWhitespace(s[0]) && !Text.IsWhitespace(s[|s| - 1])
    ensures Text.TrimStartAndEnd(s) == s
  {
  }

  /** A relative folder name with nothing for the normalisation to change:
      no surrounding whitespace, no backslash, not starting with a slash and
      not ending in a slash or a colon. */
  predicate PlainFolder(f: string) {
    && |f| > 0
    && !Text.IsWhitespace(f[0]) && !Text.IsWhitespace(f[|f| - 1])
    && f[0] != '/' && f[|f| - 1] != '/' && f[|f| - 1] != ':'
    && forall i :: 0 <= i < |f| ==> f[i] != '\\'
  }

  predicate SlashSuffix(suffix: string) {
    suffix == "" || suffix == "/" || suffix == "//"
  }

  lemma NoBackslashes(s: string)
    requires forall i :: 0 <= i < |s| ==> s[i] != '\\'
    ensures ReplaceBackslashes(s) == s
  {
  }

  lemma PlainPathHasNoBackslash(f: string, suffix: string)
    requires PlainFolder(f) && SlashSuffix(suffix)
    ensures forall i :: 0 <= i < |GameRoot + (f + suffix)| ==> (GameRoot + (f + suffix))[i] != '\\'
  {
    var p := GameRoot + (f + suffix);
    forall i | 0 <= i < |p| ensures p[i] != '\\' {
      if 6 <= i < 6 + |f| {
        assert p[i] == f[i - 6];
      } else if i >= 6 + |f| {
        assert p[i] == suffix[i - 6 - |f|];
      }
    }
  }

  /** A folder that does not start with a slash is not yet rooted. */
  lemma NotRooted(folder: string)
    requires |folder| > 0 && folder[0] != '/'
    ensures !Text.StartsWithIgnoreCase(folder, GameRoot)
  {
    if |folder| >= 6 {
      assert Text.LowerChar(folder[..6][0]) != Text.LowerChar(GameRoot[0]);
    }
  }

  /** A plain folder followed by slashes is trimmed to itself and then
      prefixed with "/Game/". */
  lemma RootedPlainFolder(f: string, suffix: string)
    requires PlainFolder(f) && SlashSuffix(suffix)
    ensures RootedFolder(f + suffix) == GameRoot + (f + suffix)
    ensures ReplaceBackslashes(GameRoot + (f + suffix)) == GameRoot + (f + suffix)
  {
    PlainFolderTrimmed(f, suffix);
    NotRooted(f + suffix);
    PlainPathHasNoBackslash(f, suffix);
    NoBackslashes(GameRoot + (f + suffix));
  }

  lemma PlainFolderTrimmed(f: string, suffix: string)
    requires PlainFolder(f) && SlashSuffix(suffix)
    ensures Text.TrimStartAndEnd(f + suffix) == f + suffix
    ensures (f + suffix)[0] == f[0]
  {
    var folder := f + suffix;
    assert folder[0] == f[0];
    assert !Text.IsWhitespace(folder[|folder| - 1]) by {
      if suffix == "" { assert folder[|folder| - 1] == f[|f| - 1]; }
    }
    NothingToTrim(folder);
  }

  /** A plain folder is placed under "/Game/" as it is. */
  lemma PlainFolderPath(f: string)
    requires PlainFolder(f)
    ensures ImportPathFor(f) == "/Game/" + f
  {
    assert f + "" == f;
    RootedPlainFolder(f, "");
  }

  /** One trailing slash is dropped. */
  lemma TrailingSlashDropped(f: string)
    requires PlainFolder(f)
    ensures ImportPathFor(f + "/") == "/Game/" + f
  {
    RootedPlainFolder(f, "/");
    var n := GameRoot + (f + "/");
    assert n[|n| - 2] == f[|f| - 1];
    assert n[..|n| - 1] == GameRoot + f;
  }

  /** Of two trailing slashes, one is kept: the result then ends in a
      slash. */
  lemma DoubleSlashKeepsOne(f: string)
    requires PlainFolder(f)
    ensures ImportPathFor(f + "//") == "/Game/" + f + "/"
  {
    RootedPlainFolder(f, "//");
    var n := GameRoot + (f + "//");
    assert NormalizeDirectoryName(n) == n;
    assert n[..|n| - 1] == GameRoot + f + "/";
  }

  lemma FallbackSpelled()
    ensures "/Game/" + FallbackAvatarFolder == "/Game/MetaTailorImported/Avatars"
  {
  }

  lemma FallbackIsPlain()
    ensures PlainFolder(FallbackAvatarFolder)
  {
  }

  /** Without settings, avatars go to the built-in folder. */
  lemma FallbackAvatarPath()
    ensures GetProjectImportPath(true, None) == "/Game/MetaTailorImported/Avatars"
  {
    FallbackIsPlain();
    PlainFolderPath(FallbackAvatarFolder);
    FallbackSpelled();
  }

  /** With the settings object as constructed, avatars go to the default
      folder, whose trailing slash is removed. */
  lemma DefaultAvatarPath()
    ensures GetProjectImportPath(true, Some(Defaults)) == "/Game/MetaTailorImported/Avatars"
  {
    var p := Defaults.pathForAvatarImports;
    NothingToTrim(p);
    assert p[..6] == GameRoot;
    NoBackslashes(p);
    assert p[..|p| - 1] == "/Game/MetaTailorImported/Avatars";
  }

  lemma RootOfEmpty()
    ensures RootedFolder("") == GameRoot
  {
    assert Text.TrimStartAndEnd("") == "";
    assert GameRoot + "" == GameRoot;
  }

  lemma NormalizeRoot()
    ensures RemoveTrailingSlash(NormalizeDirectoryName(GameRoot)) == "/Game"
  {
    NoBackslashes(GameRoot);
    assert GameRoot[..5] == "/Game";
  }

  /** An empty configured folder is the content root itself. */
  lemma EmptyFolderIsRoot()
    ensures ImportPathFor("") == "/Game"
  {
    RootOfEmpty();
    NormalizeRoot();
  }

  /** A folder already under the content root, in any spelling of "/Game/",
      is not rooted a second time: it is kept as it is. */
  lemma AlreadyRooted(root: string, f: string)
    requires Text.EqualsIgnoreCase(root, GameRoot) && PlainFolder(f)
    ensures ImportPathFor(root + f) == root + f
  {
    var p := root + f;
    assert p[0] == root[0] == '/' by {
      assert Text.LowerChar(root[0]) == '/';
    }
    assert p[|p| - 1] == f[|f| - 1];
    NothingToTrim(p);
    assert p[..|GameRoot|] == root;
    forall i | 0 <= i < |p|
      ensures p[i] != '\\'
    {
      if i < |root| {
        assert Text.LowerChar(root[i]) == Text.LowerChar(GameRoot[i]);
      } else {
        assert p[i] == f[i - |root|];
      }
    }
    NoBackslashes(p);
  }

  /** A lower-case root counts as rooted: the prefix test ignores case. */
  lemma LowerCaseRootKept(f: string)
    requires PlainFolder(f)
    ensures ImportPathFor("/game/" + f) == "/game/" + f
  {
    assert Text.EqualsIgnoreCase("/game/", GameRoot);
    AlreadyRooted("/game/", f);
  }

  /** Surrounding whitespace does not change the path. */
  lemma TrimmedFolderSamePath(folder: string)
    ensures ImportPathFor(folder) == ImportPathFor(Text.TrimStartAndEnd(folder))
  {
    Text.TrimIdempotent(folder);
  }

  // ---------------------------------------------------------------------------
  // Unique directories

  /** The k-th directory name tried: the name itself first, then with the
      suffix 2, 3, ... */
  function Candidate(base: string, k: nat): (r: string)
    requires k >= 1
  {
    if k == 1 then base else base + Text.NatToString(k)
  }

  /** Different attempts try different names. */
  lemma CandidateInjective(base: string, i: nat, j: nat)
    requires i >= 1 && j >= 1 && Candidate(base, i) == Candidate(base, j)
    ensures i == j
  {
    if i != 1 && j != 1 {
      assert Text.NatToString(i) == Candidate(base, i)[|base|..];
      assert Text.NatToString(j) == Candidate(base, j)[|base|..];
      Text.NatToStringInjective(i, j);
    }
  }

  function Tried(base: string, k: nat): set<string> {
    set j | 1 <= j <= k :: Candidate(base, j)
  }

  /** The first k attempts are k different names. */
  lemma {:induction false} TriedSize(base: string, k: nat)
    ensures |Tried(base, k)| == k
  {
    if k == 0 {
      assert Tried(base, 0) == {};
    } else {
      TriedSize(base, k - 1);
      assert Tried(base, k) == Tried(base, k - 1) + {Candidate(base, k)};
      if Candidate(base, k) in Tried(base, k - 1) {
        var j :| 1 <= j <= k - 1 && Candidate(base, j) == Candidate(base, k);
        CandidateInjective(base, j, k);
      }
    }
  }

  /** `GetUniqueDirectory` against a finite set of existing directories: the
      first candidate that does not exist. The loop ends because each
      rejected candidate is a different member of that set. */
  method GetUniqueDirectory(base: string, existing: set<string>) returns (r: string)
    ensures r !in existing
    ensures base !in existing ==> r == base
    ensures exists k :: k >= 1 && r == Candidate(base, k) && forall j :: 1 <= j < k ==> Candidate(base, j) in existing
  {
    r := base;
    var counter: nat := 1;
    while r in existing
      invariant counter >= 1 && r == Candidate(base, counter)
      invariant forall j :: 1 <= j < counter ==> Candidate(base, j) in existing
      decreases |existing| + 1 - counter
    {
      assert Tried(base, counter) <= existing;
      TriedSize(base, counter);
      assert counter <= |existing| by {
        SubsetSize(Tried(base, counter), existing);
      }
      counter := counter + 1;
      r := base + Text.NatToString(counter);
    }
  }

  lemma {:induction false} SubsetSize<T>(a: set<T>, b: set<T>)
    requires a <= b
    ensures |a| <= |b|
  {
    if a != {} {
      var x :| x in a;
      SubsetSize(a - {x}, b - {x});
    }
  }
}
