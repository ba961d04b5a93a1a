/** Path names on POSIX: normalisation, taking them apart and together, and creating directories. */
module FilePaths {
  import opened Wrappers
  import opened CStrings

  const CURRENT_DIRECTORY := "./"

  predicate IsPathSeparator(c: char) { c == '/' }

  // ----- normalisation

  /** Every separator that follows a separator is dropped. */
  function Normalized(s: string): string
  {
    if s == "" then ""
    else Normalized(Front(s)) + (if IsPathSeparator(Last(s)) && EndsInSeparator(Front(s)) then "" else [Last(s)])
  }

  predicate EndsInSeparator(s: string) { s != "" && IsPathSeparator(Last(s)) }

  ghost predicate NoDoubleSeparator(s: string)
  {
    forall i :: 0 < i < |s| ==> !(IsPathSeparator(s[i - 1]) && IsPathSeparator(s[i]))
  }

  /** The names between separators: those complete, and the one at the end. */
  function Names(s: string): (seq<string>, string)
  {
    if s == "" then ([], "") else NamesWith(Names(Front(s)), Last(s))
  }

  function NamesWith(names: (seq<string>, string), c: char): (seq<string>, string)
  {
    if !IsPathSeparator(c) then (names.0, names.1 + [c])
    else if names.1 == "" then names
    else (names.0 + [names.1], "")
  }

  lemma {:induction false} NamesAfterSeparator(s: string)
    ensures EndsInSeparator(s) ==> Names(s).1 == ""
  {
  }

  predicate StartsWithSeparator(s: string) { s != "" && IsPathSeparator(s[0]) }

  lemma {:induction false} NormalizedEnds(s: string)
    ensures var t := Normalized(s);
            && EndsInSeparator(t) == EndsInSeparator(s) && StartsWithSeparator(t) == StartsWithSeparator(s)
            && (t == "" <==> s == "") && NoDoubleSeparator(t)
  {
    if s != "" { NormalizedEnds(Front(s)); }
  }

  lemma {:induction false} NamesSnoc(s: string, c: char)
    ensures Names(s + [c]) == NamesWith(Names(s), c)
  {
    FrontLast(s, c);
  }

  lemma {:induction false} NormalizedKeepsNames(s: string)
    ensures Names(Normalized(s)) == Names(s)
  {
    if s != "" {
      var front := Front(s);
      NormalizedKeepsNames(front);
      NamesAfterSeparator(front);
      NamesSnoc(Normalized(front), Last(s));
      assert Normalized(front) + "" == Normalized(front);
    }
  }

  /** A path without adjacent separators is made of its names and of whether it starts with a separator. */
  lemma {:induction false} NamesDetermine(s: string, t: string)
    requires NoDoubleSeparator(s) && NoDoubleSeparator(t)
    requires Names(s) == Names(t) && StartsWithSeparator(s) == StartsWithSeparator(t)
    ensures s == t
    decreases |s|
  {
    hide Names;
    SeparatorThenName(s);
    SeparatorThenName(t);
    if s != "" && t != "" {
      assert s == Front(s) + [Last(s)] && t == Front(t) + [Last(t)];
      if Names(s).1 != "" {
        assert Names(Front(s)).1 == Front(Names(s).1) && Last(s) == Last(Names(s).1);
        assert Names(Front(t)).1 == Front(Names(t).1) && Last(t) == Last(Names(t).1);
        SeparatorThenName(Front(s));
        SeparatorThenName(Front(t));
        if |s| > 1 && |t| > 1 { NamesDetermine(Front(s), Front(t)); }
      } else if Names(s).0 != [] {
        assert Names(Front(s)) == (Front(Names(s).0), Last(Names(s).0));
        assert Names(Front(t)) == (Front(Names(t).0), Last(Names(t).0));
        NoNames();
        NamesDetermine(Front(s), Front(t));
      }
    }
  }

  lemma {:induction false} NoNames()
    ensures Names("") == ([], "")
  {
  }

  /** How a path without adjacent separators ends. */
  lemma {:induction false} SeparatorThenName(s: string)
    requires NoDoubleSeparator(s)
    ensures Names(s) == ([], "") <==> s == "" || s == "/"
    ensures Names(s).1 == "" <==> s == "" || EndsInSeparator(s)
    ensures s != "" && EndsInSeparator(s) && s != "/" ==>
              Names(Front(s)).1 != "" && Names(s) == (Names(Front(s)).0 + [Names(Front(s)).1], "")
    ensures s != "" && !EndsInSeparator(s) ==> Names(s) == (Names(Front(s)).0, Names(Front(s)).1 + [Last(s)])
  {
    if s != "" {
      SeparatorThenName(Front(s));
      if |s| > 1 { assert !(IsPathSeparator(s[|s| - 2]) && IsPathSeparator(s[|s| - 1])); }
    }
  }

  /** Normalising removes what is redundant and nothing else: two paths become the same exactly when they have the
      same names and both or neither start with a separator. */
  lemma {:induction false} NormalizedIff(s: string, t: string)
    ensures Normalized(s) == Normalized(t) <==> Names(s) == Names(t) && StartsWithSeparator(s) == StartsWithSeparator(t)
    ensures NoDoubleSeparator(s) <==> Normalized(s) == s
  {
    NormalizedEnds(s);
    NormalizedEnds(t);
    NormalizedKeepsNames(s);
    NormalizedKeepsNames(t);
    if Names(s) == Names(t) && StartsWithSeparator(s) == StartsWithSeparator(t) {
      NamesDetermine(Normalized(s), Normalized(t));
    }
    if NoDoubleSeparator(s) { NamesDetermine(Normalized(s), s); }
  }

  lemma {:induction false} NormalizedTwice(s: string)
    ensures Normalized(Normalized(s)) == Normalized(s)
  {
    NormalizedEnds(s);
    NormalizedIff(Normalized(s), s);
  }

  /** Two slashes in a row are as good as one, wherever they stand; a path without two in a row stays as it is. */
  lemma {:induction false} SlashesMerge(a: string, b: string)
    ensures Normalized(a + "//" + b) == Normalized(a + "/" + b)
    ensures (forall i :: 0 < i < |a| ==> !(a[i - 1] == '/' && a[i] == '/')) ==> Normalized(a) == a
  {
    if b == "" {
      assert a + "//" + b == (a + "/") + ['/'] && a + "/" + b == a + "/";
      FrontLast(a + "/", '/');
      FrontLast(a, '/');
    } else {
      SlashesMerge(a, Front(b));
      assert Front(a + "//" + b) == a + "//" + Front(b) && Last(a + "//" + b) == Last(b);
      assert Front(a + "/" + b) == a + "/" + Front(b) && Last(a + "/" + b) == Last(b);
      SlashBehind(a, Front(b));
    }
    NormalizedIff(a, a);
  }

  lemma {:induction false} SlashBehind(a: string, b: string)
    ensures EndsInSeparator(a + "//" + b) <==> EndsInSeparator(a + "/" + b)
  {
    if b == "" {
      assert Last(a + "//" + b) == '/' && Last(a + "/" + b) == '/';
    } else {
      assert Last(a + "//" + b) == Last(b) && Last(a + "/" + b) == Last(b);
    }
  }

  /** One more stretch of the source: a character, or a run of separators. */
  lemma {:induction false} NormalizedRun(s: string, run: string)
    requires !EndsInSeparator(s) && run != "" && forall i :: 0 <= i < |run| ==> IsPathSeparator(run[i])
    ensures Normalized(s + run) == Normalized(s) + "/"
  {
    assert Front(s + run) == s + Front(run) && Last(s + run) == Last(run);
    if |run| == 1 {
      assert s + Front(run) == s;
    } else {
      NormalizedRun(s, Front(run));
      assert Last(s + Front(run)) == Last(Front(run));
    }
  }

  lemma {:induction false} NormalizedCharacter(s: string, c: char)
    requires !IsPathSeparator(c)
    ensures Normalized(s + [c]) == Normalized(s) + [c]
  {
    FrontLast(s, c);
  }

  class FilePath {
    var pathname: CString

    constructor (name: CString)
      ensures pathname == Normalized(name)
    {
      pathname := name;
      new;
      Normalize();
    }

    method Normalize()
      modifies this
      ensures pathname == Normalized(old(pathname))
    {
      var s := pathname;
      var dest := new char[|s| + 1](_ => '\0');
      var src, destPtr := 0, 0;
      while At(s, src) != '\0'
        invariant 0 <= destPtr <= src <= |s|
        invariant dest[..destPtr] == Normalized(s[..src])
        invariant src < |s| && IsPathSeparator(s[src]) ==> !EndsInSeparator(s[..src])
        decreases |s| - src
      {
        dest[destPtr] := s[src];
        ghost var from := src;
        if !IsPathSeparator(s[src]) {
          src := src + 1;
          NormalizedCharacter(s[..from], s[from]);
          assert s[..src] == s[..from] + [s[from]];
        } else {
          src := SkipSeparators(s, src);
          NormalizedRun(s[..from], s[from..src]);
          assert s[..src] == s[..from] + s[from..src];
        }
        destPtr := destPtr + 1;
      }
      TerminatorIsEnd(s, src);
      assert s[..src] == s;
      dest[destPtr] := '\0';
      NormalizedIsShorter(s);
      pathname := dest[..destPtr];
    }
  }

  method SkipSeparators(s: CString, from: nat) returns (src: nat)
    requires from < |s| && IsPathSeparator(s[from])
    ensures from < src <= |s| && (forall i :: from <= i < src ==> IsPathSeparator(s[i]))
    ensures src < |s| ==> !IsPathSeparator(s[src])
  {
    src := from;
    while IsPathSeparator(At(s, src))
      invariant from <= src <= |s| && forall i :: from <= i < src ==> IsPathSeparator(s[i])
      invariant src == from ==> IsPathSeparator(At(s, src))
      decreases |s| - src
    {
      src := src + 1;
    }
  }

  lemma {:induction false} NormalizedIsShorter(s: CString)
    ensures |Normalized(s)| <= |s| && forall i :: 0 <= i < |Normalized(s)| ==> Normalized(s)[i] != '\0'
  {
    if s != "" {
      var front: CString := Front(s);
      NormalizedIsShorter(front);
    }
  }

  // ----- taking paths apart

  /** The place after the last separator, or 0. */
  function AfterLastSeparator(s: string): (k: nat)
    ensures k <= |s| && (k > 0 ==> IsPathSeparator(s[k - 1])) && forall i :: k <= i < |s| ==> !IsPathSeparator(s[i])
  {
    if s == "" then 0 else if IsPathSeparator(Last(s)) then |s| else AfterLastSeparator(Front(s))
  }

  function RemoveFileName(s: string): string
  {
    var k := AfterLastSeparator(s);
    if k == 0 then CURRENT_DIRECTORY else s[..k]
  }

  function RemoveDirectoryName(s: string): string { s[AfterLastSeparator(s)..] }

  function RemoveTrailingPathSeparator(s: string): string { if EndsInSeparator(s) then Front(s) else s }

  function ConcatPaths(directory: string, relativePath: string): string
  {
    if directory == "" then relativePath
    else Normalized(RemoveTrailingPathSeparator(directory) + "/" + relativePath)
  }

  /** The directory part ends with the last slash; a path without a slash is a file of the current directory. */
  lemma {:induction false} PartsMean(directory: string, name: string)
    requires forall i :: 0 <= i < |name| ==> name[i] != '/'
    ensures RemoveFileName(directory + "/" + name) == directory + "/" && RemoveDirectoryName(directory + "/" + name) == name
    ensures RemoveFileName(name) == "./" && RemoveDirectoryName(name) == name
  {
    var s := directory + "/" + name;
    var k := |directory| + 1;
    assert s[k - 1] == '/' && forall i :: k <= i < |s| ==> s[i] == name[i - k];
    assert AfterLastSeparator(s) == k && AfterLastSeparator(name) == 0;
    assert s[..k] == directory + "/" && s[k..] == name && name[0..] == name;
  }

  /** Taken apart and put together again a path is the same path, unless its directory was not written out. */
  lemma {:induction false} TakenApart(s: string)
    requires NoDoubleSeparator(s)
    ensures ConcatPaths(RemoveFileName(s), RemoveDirectoryName(s)) == if AfterLastSeparator(s) > 0 then s else "./" + s
  {
    var k := AfterLastSeparator(s);
    if k > 0 {
      assert s[..k - 1] + "/" + s[k..] == s;
      assert Front(s[..k]) == s[..k - 1];
      NormalizedIff(s, s);
    } else {
      assert RemoveTrailingPathSeparator(CURRENT_DIRECTORY) == ".";
      var t := "." + "/" + s;
      assert t == "./" + s;
      assert NoDoubleSeparator(t) by {
        forall i | 0 < i < |t| ensures !(IsPathSeparator(t[i - 1]) && IsPathSeparator(t[i])) {
          if i >= 2 { assert t[i] == s[i - 2]; }
        }
      }
      NormalizedIff(t, t);
    }
  }

  // ----- directories

  /** The directory that holds the directory `s`. */
  function Parent(s: string): string { RemoveFileName(RemoveTrailingPathSeparator(s)) }

  lemma {:induction false} ParentIsShorter(s: string)
    requires EndsInSeparator(s)
    ensures EndsInSeparator(Parent(s)) && (Parent(s) == CURRENT_DIRECTORY || |Parent(s)| < |s|)
  {
  }

  /** A directory path and those above it, up to the current directory. */
  ghost function Above(s: string): (paths: set<string>)
    requires EndsInSeparator(s)
    decreases if s == CURRENT_DIRECTORY then 0 else |s|
  {
    ParentIsShorter(s);
    {s} + (if s == CURRENT_DIRECTORY || Parent(s) == CURRENT_DIRECTORY then {} else Above(Parent(s)))
  }

  /** The current directory exists, and whatever exists is in a directory that exists. */
  ghost predicate WellFormed(dirs: set<string>)
  {
    CURRENT_DIRECTORY in dirs && forall s :: s in dirs && EndsInSeparator(s) ==> Parent(s) in dirs
  }

  lemma {:induction false} AllAboveExist(dirs: set<string>, s: string)
    requires WellFormed(dirs) && s in dirs && EndsInSeparator(s)
    ensures Above(s) <= dirs
    decreases if s == CURRENT_DIRECTORY then 0 else |s|
  {
    ParentIsShorter(s);
    if s != CURRENT_DIRECTORY && Parent(s) != CURRENT_DIRECTORY { AllAboveExist(dirs, Parent(s)); }
  }

  class FileSystem {
    var dirs: set<string>
    /** Where a directory may be made: no file is in the way and permission is given. */
    const allowed: set<string>

    constructor (existing: set<string>, mayMake: set<string>)
      ensures dirs == existing && allowed == mayMake
    {
      dirs, allowed := existing, mayMake;
    }

    method Mkdir(s: string) returns (made: bool)
      modifies this
      ensures made == (s !in old(dirs) && s in allowed && Parent(s) in old(dirs))
      ensures dirs == if made then old(dirs) + {s} else old(dirs)
    {
      made := s !in dirs && s in allowed && Parent(s) in dirs;
      if made { dirs := dirs + {s}; }
    }
  }

  method CreateFolder(fs: FileSystem, s: string) returns (ok: bool)
    modifies fs
    ensures ok == (s in old(fs.dirs) || (s in fs.allowed && Parent(s) in old(fs.dirs)))
    ensures fs.dirs == if ok then old(fs.dirs) + {s} else old(fs.dirs)
  {
    var made := fs.Mkdir(s);
    if !made { return s in fs.dirs; }
    return true;
  }

  /** The directories on the way to `s` that can be made: each only if all missing ones above it can. */
  ghost function Creatable(dirs: set<string>, allowed: set<string>, s: string): set<string>
    requires EndsInSeparator(s)
  {
    set p | p in Above(s) && EndsInSeparator(p) && Above(p) - dirs <= allowed
  }

  lemma {:induction false} CreatableStep(dirs: set<string>, allowed: set<string>, s: string)
    requires WellFormed(dirs) && EndsInSeparator(s) && s !in dirs
    ensures EndsInSeparator(Parent(s))
    ensures Above(s) - dirs <= allowed <==> Above(Parent(s)) - dirs <= allowed && s in allowed
    ensures dirs + Creatable(dirs, allowed, s) ==
            dirs + Creatable(dirs, allowed, Parent(s)) + (if Above(s) - dirs <= allowed then {s} else {})
  {
    ParentIsShorter(s);
    if Parent(s) == CURRENT_DIRECTORY {
      assert Above(s) == {s} && Above(CURRENT_DIRECTORY) == {CURRENT_DIRECTORY};
    } else {
      assert Above(s) == {s} + Above(Parent(s));
    }
  }

  /** Without the current directory there would be no end to the search for one that exists. */
  lemma {:induction false} CurrentDirectoryIsItsOwnParent(s: string)
    requires EndsInSeparator(s)
    ensures Parent(s) == s <==> s == CURRENT_DIRECTORY
  {
    ParentIsShorter(s);
    assert Front(CURRENT_DIRECTORY) == ".";
    assert AfterLastSeparator(".") == 0;
  }

  /** Makes the missing directories on the way to this one, as far as that is possible. */
  method CreateDirectoriesRecursively(fs: FileSystem, s: string) returns (ok: bool)
    requires WellFormed(fs.dirs)
    modifies fs
    ensures WellFormed(fs.dirs)
    ensures !EndsInSeparator(s) ==> !ok && fs.dirs == old(fs.dirs)
    ensures EndsInSeparator(s) ==> fs.dirs == old(fs.dirs) + Creatable(old(fs.dirs), fs.allowed, s)
    ensures EndsInSeparator(s) ==> (ok <==> s in fs.dirs) && (ok <==> Above(s) - old(fs.dirs) <= fs.allowed)
    decreases if s in fs.dirs then 0 else |s|
  {
    if !EndsInSeparator(s) { return false; }
    if s in fs.dirs {
      AllAboveExist(fs.dirs, s);
      return true;
    }
    hide WellFormed, Above, Creatable, Parent;
    CreatableStep(fs.dirs, fs.allowed, s);
    ParentIsShorter(s);
    var parent := Parent(s);
    ok := CreateDirectoriesRecursively(fs, parent);
    if ok {
      ok := CreateFolder(fs, s);
    }
  }
}
