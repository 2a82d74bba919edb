/** Maildir++ folders: `/`-separated paths as directories named `.Folder.Sub`, and back
    (crates/mail-archive/src/maildir.rs). */
module MaildirFolders {
  import opened Options

  /** The pieces of `s` between separators: always one at least. */
  function Split(s: string, sep: char): (parts: seq<string>)
    ensures parts != []
  {
    if s == "" then [""]
    else if s[0] == sep then [""] + Split(s[1..], sep)
    else
      var rest := Split(s[1..], sep);
      [[s[0]] + rest[0]] + rest[1..]
  }

  function Join(parts: seq<string>, sep: char): string {
    if parts == [] then "" else if |parts| == 1 then parts[0] else parts[0] + ([sep] + Join(parts[1..], sep))
  }

  function NonEmpty(parts: seq<string>): seq<string> {
    if parts == [] then [] else (if parts[0] == "" then [] else [parts[0]]) + NonEmpty(parts[1..])
  }

  /** A character as a directory name can hold it. */
  function CleanChar(c: char): char {
    if c == '.' || c == '/' || c == '\\' || c == '\0' then '_' else c
  }

  function Clean(part: string): string {
    if part == "" then "" else [CleanChar(part[0])] + Clean(part[1..])
  }

  function CleanAll(parts: seq<string>): seq<string> {
    if parts == [] then [] else [Clean(parts[0])] + CleanAll(parts[1..])
  }

  /** The path a directory's name stands for, one level for each dot, if it is a folder's. */
  function FolderOfDir(dir: string): Option<string> {
    if dir == "" || dir[0] != '.' then None else
    var parts := NonEmpty(Split(dir[1..], '.'));
    if parts == [] then None else Some(Join(parts, '/'))
  }

  /** The directory's name a path is written as. */
  function DirOfFolder(path: string): string {
    "." + Join(CleanAll(NonEmpty(Split(path, '/'))), '.')
  }

  // ---------- splitting and joining

  predicate Free(parts: seq<string>, sep: char) {
    forall i :: 0 <= i < |parts| ==> sep !in parts[i]
  }

  predicate NoneEmpty(parts: seq<string>) {
    forall i :: 0 <= i < |parts| ==> parts[i] != ""
  }

  lemma {:induction false} SplitOne(s: string, sep: char)
    requires sep !in s
    ensures Split(s, sep) == [s]
  {
    if s != "" {
      assert s == [s[0]] + s[1..];
      SplitOne(s[1..], sep);
    }
  }

  lemma {:induction false} SplitFirst(s: string, rest: string, sep: char)
    requires sep !in s
    ensures Split(s + ([sep] + rest), sep) == [s] + Split(rest, sep)
  {
    var whole := s + ([sep] + rest);
    if s == "" {
      assert whole == [sep] + rest;
      assert whole[1..] == rest;
    } else {
      assert s == [s[0]] + s[1..];
      assert whole[1..] == s[1..] + ([sep] + rest);
      SplitFirst(s[1..], rest, sep);
    }
  }

  /** Parts with no separator in them, joined and split, are the parts. */
  lemma {:induction false} SplitJoin(parts: seq<string>, sep: char)
    requires parts != [] && Free(parts, sep)
    ensures Split(Join(parts, sep), sep) == parts
  {
    if |parts| == 1 {
      SplitOne(parts[0], sep);
      assert parts == [parts[0]];
    } else {
      SplitJoin(parts[1..], sep);
      SplitFirst(parts[0], Join(parts[1..], sep), sep);
      assert parts == [parts[0]] + parts[1..];
    }
  }

  /** What is split has no separator in it, and joined again is what it was. */
  lemma {:induction false} JoinSplit(s: string, sep: char)
    ensures Join(Split(s, sep), sep) == s && Free(Split(s, sep), sep)
  {
    if s != "" {
      JoinSplit(s[1..], sep);
      var rest := Split(s[1..], sep);
      var parts := Split(s, sep);
      assert s == [s[0]] + s[1..];
      if s[0] == sep {
        assert parts[1..] == rest;
      } else {
        assert parts[1..] == rest[1..];
        if |rest| > 1 { assert [s[0]] + rest[0] + ([sep] + Join(rest[1..], sep)) == [s[0]] + (rest[0] + ([sep] + Join(rest[1..], sep))); }
      }
    }
  }

  lemma {:induction false} NonEmptyIs(parts: seq<string>)
    ensures NoneEmpty(NonEmpty(parts))
    ensures forall part :: part in NonEmpty(parts) ==> part in parts
    ensures NoneEmpty(parts) <==> NonEmpty(parts) == parts
    ensures |NonEmpty(parts)| <= |parts|
  {
    if parts != [] {
      NonEmptyIs(parts[1..]);
      assert parts == [parts[0]] + parts[1..];
      if parts[0] == "" {
        assert |NonEmpty(parts)| < |parts|;
      } else {
        assert NonEmpty(parts)[1..] == NonEmpty(parts[1..]);
      }
    }
  }

  lemma {:induction false} NonEmptyFree(parts: seq<string>, sep: char)
    requires Free(parts, sep)
    ensures Free(NonEmpty(parts), sep)
  {
    if parts != [] { NonEmptyFree(parts[1..], sep); }
  }

  // ---------- cleaning

  predicate Bad(c: char) {
    c == '.' || c == '/' || c == '\\' || c == '\0'
  }

  predicate Good(part: string) {
    forall i :: 0 <= i < |part| ==> !Bad(part[i])
  }

  lemma {:induction false} CleanIs(part: string)
    ensures |Clean(part)| == |part| && Good(Clean(part)) && (Good(part) <==> Clean(part) == part)
    ensures forall i :: 0 <= i < |part| ==> Clean(part)[i] == if part[i] in {'.', '/', '\\', '\0'} then '_' else part[i]
  {
    if part != "" {
      CleanIs(part[1..]);
      assert part == [part[0]] + part[1..];
      if Clean(part) == part {
        assert Clean(part)[0] == part[0] && Clean(part)[1..] == part[1..];
      }
    }
  }

  predicate AllGood(parts: seq<string>) {
    forall i :: 0 <= i < |parts| ==> Good(parts[i])
  }

  lemma {:induction false} CleanAllIs(parts: seq<string>)
    ensures |CleanAll(parts)| == |parts| && AllGood(CleanAll(parts))
    ensures NoneEmpty(parts) ==> NoneEmpty(CleanAll(parts))
    ensures AllGood(parts) <==> CleanAll(parts) == parts
  {
    if parts != [] {
      CleanIs(parts[0]);
      CleanAllIs(parts[1..]);
      assert parts == [parts[0]] + parts[1..];
      if CleanAll(parts) == parts {
        assert CleanAll(parts)[0] == parts[0] && CleanAll(parts)[1..] == parts[1..];
      }
    }
  }

  lemma GoodFree(parts: seq<string>, sep: char)
    requires AllGood(parts) && Bad(sep)
    ensures Free(parts, sep)
  {
  }

  // ---------- the codecs undo each other

  /** A path cleaned: without its empty parts, and each character one a directory name can hold. */
  function CleanPath(path: string): string {
    Join(CleanAll(NonEmpty(Split(path, '/'))), '/')
  }

  predicate HasPart(path: string) {
    NonEmpty(Split(path, '/')) != []
  }

  lemma PartsOf(path: string)
    ensures var parts := CleanAll(NonEmpty(Split(path, '/')));
            && AllGood(parts) && NoneEmpty(parts) && (parts == [] <==> !HasPart(path))
            && Free(parts, '.') && Free(parts, '/')
  {
    NonEmptyIs(Split(path, '/'));
    CleanAllIs(NonEmpty(Split(path, '/')));
    var parts := CleanAll(NonEmpty(Split(path, '/')));
    GoodFree(parts, '.');
    GoodFree(parts, '/');
  }

  lemma NoParts()
    ensures NonEmpty(Split("", '.')) == []
  {
    assert NonEmpty([""]) == NonEmpty([""][1..]) == [];
  }

  /** A folder's directory holds the folder, its path cleaned, if the path names anything, and else no folder. */
  lemma FolderRoundTrip(path: string)
    ensures FolderOfDir(DirOfFolder(path)) == if HasPart(path) then Some(CleanPath(path)) else None
  {
    PartsOf(path);
    var parts := CleanAll(NonEmpty(Split(path, '/')));
    assert DirOfFolder(path)[1..] == Join(parts, '.');
    if parts != [] {
      SplitJoin(parts, '.');
      NonEmptyIs(parts);
    } else {
      NoParts();
    }
  }

  /** Cleaning a path twice is cleaning it once, and the directory is the same. */
  lemma CleanPathStays(path: string)
    ensures CleanPath(CleanPath(path)) == CleanPath(path) && DirOfFolder(CleanPath(path)) == DirOfFolder(path)
  {
    PartsOf(path);
    var parts := CleanAll(NonEmpty(Split(path, '/')));
    if parts != [] {
      SplitJoin(parts, '/');
      NonEmptyIs(parts);
      CleanAllIs(parts);
    }
  }

  /** A directory is the one of the folder it holds exactly when no level of it is empty and nothing in it would
      be cleaned away. */
  lemma DirRoundTrip(dir: string)
    requires FolderOfDir(dir).Some?
    ensures DirOfFolder(FolderOfDir(dir).value) == dir <==>
              NoneEmpty(Split(dir[1..], '.')) && AllGood(Split(dir[1..], '.'))
  {
    var levels := Split(dir[1..], '.');
    var parts := NonEmpty(levels);
    JoinSplit(dir[1..], '.');
    NonEmptyIs(levels);
    var path := Join(parts, '/');
    assert dir == "." + dir[1..];
    if NoneEmpty(levels) && AllGood(levels) {
      GoodFree(levels, '/');
      SplitJoin(levels, '/');
      CleanAllIs(levels);
    }
    if DirOfFolder(path) == dir {
      PartsOf(path);
      var again := CleanAll(NonEmpty(Split(path, '/')));
      assert dir[1..] == Join(again, '.');
      if again != [] {
        SplitJoin(again, '.');
      }
    }
  }

  // ---------- which directory is whose

  lemma SplitStep(first: char, tail: string, sep: char)
    ensures Split([first] + tail, sep) ==
              if first == sep then [""] + Split(tail, sep) else [[first] + Split(tail, sep)[0]] + Split(tail, sep)[1..]
  {
    assert ([first] + tail)[1..] == tail;
  }

  lemma {:induction false} SplitConcat(a: string, b: string, sep: char)
    ensures Split(a + ([sep] + b), sep) == Split(a, sep) + Split(b, sep)
  {
    if a == "" {
      assert a + ([sep] + b) == [sep] + b;
      SplitStep(sep, b, sep);
    } else {
      var tail := a[1..] + ([sep] + b);
      assert a == [a[0]] + a[1..] && a + ([sep] + b) == [a[0]] + tail;
      SplitConcat(a[1..], b, sep);
      SplitStep(a[0], tail, sep);
      SplitStep(a[0], a[1..], sep);
      FirstOf(Split(a[1..], sep), Split(b, sep), a[0]);
    }
  }

  lemma FirstOf(a: seq<string>, b: seq<string>, c: char)
    requires a != []
    ensures [[c] + (a + b)[0]] + (a + b)[1..] == ([[c] + a[0]] + a[1..]) + b
    ensures [""] + (a + b) == ([""] + a) + b
  {
  }

  lemma {:induction false} NonEmptyConcat(a: seq<string>, b: seq<string>)
    ensures NonEmpty(a + b) == NonEmpty(a) + NonEmpty(b)
  {
    if a == [] {
      assert a + b == b;
    } else {
      assert (a + b)[1..] == a[1..] + b;
      NonEmptyConcat(a[1..], b);
    }
  }

  /** The parts of a path that are not empty. */
  function Named(path: string): seq<string> {
    NonEmpty(Split(path, '/'))
  }

  lemma NamedConcat(a: string, b: string)
    ensures Named(a + (['/'] + b)) == Named(a) + Named(b)
  {
    SplitConcat(a, b, '/');
    NonEmptyConcat(Split(a, '/'), Split(b, '/'));
  }

  lemma SameNamed(a: string, b: string)
    requires Named(a) == Named(b)
    ensures DirOfFolder(a) == DirOfFolder(b)
  {
  }

  /** An empty part of a path makes no difference to its directory: a separator doubled, or first, or last. */
  lemma EmptyPartsSkipped(a: string, b: string)
    ensures DirOfFolder(a + (['/'] + (['/'] + b))) == DirOfFolder(a + (['/'] + b))
    ensures DirOfFolder(['/'] + a) == DirOfFolder(a) && DirOfFolder(a + ['/']) == DirOfFolder(a)
  {
    NoPart();
    FirstSkipped(b);
    NamedConcat(a, ['/'] + b);
    NamedConcat(a, b);
    SameNamed(a + (['/'] + (['/'] + b)), a + (['/'] + b));
    FirstSkipped(a);
    SameNamed(['/'] + a, a);
    NamedConcat(a, "");
    assert a + (['/'] + "") == a + ['/'] && Named(a) + [] == Named(a);
    SameNamed(a + ['/'], a);
  }

  lemma FirstSkipped(a: string)
    ensures Named(['/'] + a) == Named(a)
  {
    NoPart();
    NamedConcat("", a);
    assert "" + (['/'] + a) == ['/'] + a && [] + Named(a) == Named(a);
  }

  lemma NoPart()
    ensures NonEmpty([""]) == [] && Split("", '/') == [""]
  {
    assert NonEmpty([""]) == NonEmpty([""][1..]) == [];
  }

  /** Levels that a directory's name can hold are joined by dots after a first one, and are a path's, joined by slashes. */
  lemma DirIs(parts: seq<string>)
    requires parts != [] && NoneEmpty(parts) && AllGood(parts)
    ensures DirOfFolder(Join(parts, '/')) == "." + Join(parts, '.')
    ensures FolderOfDir("." + Join(parts, '.')) == Some(Join(parts, '/'))
  {
    GoodFree(parts, '/');
    GoodFree(parts, '.');
    SplitJoin(parts, '/');
    SplitJoin(parts, '.');
    NonEmptyIs(parts);
    CleanAllIs(parts);
    assert ("." + Join(parts, '.'))[1..] == Join(parts, '.');
  }
}
